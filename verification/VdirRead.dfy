/** vdir.c: the file's own copy of a vdir, and reads of it that may stop and go back. */
module VdirRead {
  import opened Names
  import opened Util
  import opened VdirPack
  import W = VdirWrite

  /** What the blocks from i on hold. */
  function WalkAll(bs: seq<Block>, i: nat): seq<De>
    requires i <= |bs|
    decreases |bs| - i
  {
    if i == |bs| then [] else Walk(bs[i], 0) + WalkAll(bs, i + 1)
  }

  /** From off on, the block is packed up to end. */
  ghost predicate Sound(b: Block, off: nat, end: nat) {
    off <= DEBLK_SIZE && Packed(b, off, Walk(b, off), end)
  }

  /** A finished vdir: the last terminator is a zero length. */
  ghost predicate Cache(bs: seq<Block>, ends: seq<nat>) {
    && 0 < |bs| == |ends|
    && (forall i :: 0 <= i < |bs| ==> Sound(bs[i], 0, ends[i]))
    && CalcSize(0) <= DEBLK_SIZE - ends[|bs| - 1]
  }

  /** Entry by entry, the walk from off comes to p. */
  predicate Reach(b: Block, off: nat, p: nat)
    decreases p - off
  {
    off == p || (off < p && !IsEnd(b, off) && Reach(b, off + CalcSize(b[off + LEN_OFF] as int), p))
  }

  /** What is left from offset p of block i on. */
  function Rest(bs: seq<Block>, i: nat, p: nat): seq<De>
    requires i < |bs|
  {
    Walk(bs[i], p) + WalkAll(bs, i + 1)
  }

  /** What is left at a file position. */
  function RestAt(bs: seq<Block>, pos: nat): seq<De> {
    if pos / DEBLK_SIZE < |bs| then Rest(bs, pos / DEBLK_SIZE, pos % DEBLK_SIZE) else []
  }

  /** The positions readdir hands out: the start, an entry, or the terminator of the last block. */
  predicate CookieAt(bs: seq<Block>, i: nat, p: nat) {
    && i < |bs| && p < DEBLK_SIZE && Reach(bs[i], 0, p)
    && (i + p == 0 || i == |bs| - 1 || !IsEnd(bs[i], p))
  }

  predicate Cookie(bs: seq<Block>, pos: nat) {
    CookieAt(bs, pos / DEBLK_SIZE, pos % DEBLK_SIZE)
  }

  lemma {:induction false} Split(i: nat, p: nat)
    requires p < DEBLK_SIZE
    ensures (DEBLK_SIZE * i + p) / DEBLK_SIZE == i && (DEBLK_SIZE * i + p) % DEBLK_SIZE == p
  {
  }

  /** One step of the walk. */
  lemma {:induction false} SoundStep(b: Block, off: nat, end: nat)
    requires Sound(b, off, end) && !IsEnd(b, off)
    ensures off + NAME_OFF + b[off + LEN_OFF] as int <= DEBLK_SIZE
    ensures Walk(b, off) == [DeAt(b, off)] + Walk(b, off + CalcSize(b[off + LEN_OFF] as int))
    ensures Sound(b, off + CalcSize(b[off + LEN_OFF] as int), end)
    ensures off + CalcSize(b[off + LEN_OFF] as int) <= DEBLK_SIZE
  {
    hide CalcSize;
    var es := Walk(b, off);
    LaidEnd(b, off, es, end);
    assert es != [];
    assert EntryAt(b, off, es[0]);
  }

  lemma {:induction false} SoundStop(b: Block, off: nat, end: nat)
    requires Sound(b, off, end) && IsEnd(b, off)
    ensures Walk(b, off) == [] && off == end
  {
  }

  lemma {:induction false} ReachStep(b: Block, off: nat, p: nat)
    requires Reach(b, off, p) && !IsEnd(b, p)
    ensures Reach(b, off, p + CalcSize(b[p + LEN_OFF] as int))
    decreases p - off
  {
    hide CalcSize;
    if off != p {
      ReachStep(b, off + CalcSize(b[off + LEN_OFF] as int), p);
    }
  }

  lemma {:induction false} ReachSound(b: Block, off: nat, p: nat, end: nat)
    requires Reach(b, off, p) && Sound(b, off, end)
    ensures Sound(b, p, end)
    decreases p - off
  {
    hide CalcSize;
    if off != p {
      SoundStep(b, off, end);
      ReachSound(b, off + CalcSize(b[off + LEN_OFF] as int), p, end);
    }
  }

  /** At the end of a block what is left is what the next blocks hold. */
  lemma {:induction false} RestEnd(bs: seq<Block>, ends: seq<nat>, i: nat, p: nat)
    requires Cache(bs, ends) && i < |bs| && Reach(bs[i], 0, p) && IsEnd(bs[i], p)
    ensures p == ends[i]
    ensures Rest(bs, i, p) == if i + 1 < |bs| then Rest(bs, i + 1, 0) else []
  {
    ReachSound(bs[i], 0, p, ends[i]);
    SoundStop(bs[i], p, ends[i]);
  }

  lemma {:induction false} EndRoom(b: Block, p: nat)
    requires !IsEnd(b, p)
    ensures CalcSize(0) <= DEBLK_SIZE - p && p < DEBLK_SIZE
  {
  }

  /** Otherwise there is an entry, and then the rest. */
  lemma {:induction false} RestStep(bs: seq<Block>, ends: seq<nat>, i: nat, p: nat)
    requires Cache(bs, ends) && i < |bs| && Reach(bs[i], 0, p) && !IsEnd(bs[i], p)
    ensures p + NAME_OFF + bs[i][p + LEN_OFF] as int <= DEBLK_SIZE
    ensures Rest(bs, i, p) == [DeAt(bs[i], p)] + Rest(bs, i, p + CalcSize(bs[i][p + LEN_OFF] as int))
    ensures p + CalcSize(bs[i][p + LEN_OFF] as int) <= DEBLK_SIZE
    ensures Reach(bs[i], 0, p + CalcSize(bs[i][p + LEN_OFF] as int))
    ensures CookieAt(bs, i, p)
  {
    hide CalcSize, Walk, Sound, WalkAll, DeAt;
    assert CalcSize(0) <= DEBLK_SIZE - p by {
      EndRoom(bs[i], p);
    }
    ReachSound(bs[i], 0, p, ends[i]);
    SoundStep(bs[i], p, ends[i]);
    ReachStep(bs[i], 0, p);
  }

  lemma {:induction false} CookieIs(bs: seq<Block>, i: nat, p: nat)
    requires CookieAt(bs, i, p)
    ensures Cookie(bs, DEBLK_SIZE * i + p) && RestAt(bs, DEBLK_SIZE * i + p) == Rest(bs, i, p)
  {
    Split(i, p);
  }

  lemma {:induction false} CookieSplit(bs: seq<Block>, pos: nat) returns (i: nat, p: nat)
    requires Cookie(bs, pos)
    ensures CookieAt(bs, i, p) && pos == DEBLK_SIZE * i + p && RestAt(bs, pos) == Rest(bs, i, p)
    ensures i == pos / DEBLK_SIZE
  {
    i, p := pos / DEBLK_SIZE, pos % DEBLK_SIZE;
  }

  /** A reply of readdir: the entry and the position it was passed with. */
  datatype Given = Given(de: De, pos: nat)

  /** got was handed out, in order, of what was left at first; rest is left now. */
  ghost predicate Handed(bs: seq<Block>, first: seq<De>, got: seq<Given>, rest: seq<De>) {
    && |first| == |got| + |rest| && first[|got|..] == rest
    && forall k :: 0 <= k < |got| ==> Cookie(bs, got[k].pos) && got[k].de == first[k] && RestAt(bs, got[k].pos) == first[k..]
  }

  lemma {:induction false} HandedOne(bs: seq<Block>, first: seq<De>, got: seq<Given>, rest: seq<De>, g: Given)
    requires Handed(bs, first, got, rest) && rest != [] && g.de == rest[0]
    requires Cookie(bs, g.pos) && RestAt(bs, g.pos) == rest
    ensures Handed(bs, first, got + [g], rest[1..])
  {
    hide Cookie, RestAt;
  }

  lemma {:induction false} HandedNone(bs: seq<Block>, first: seq<De>)
    ensures Handed(bs, first, [], first)
  {
    assert first[0..] == first;
  }

  /** What a caller may ask for. */
  datatype Req = Read(budget: nat) | Rewind | Back(k: nat)

  /** What it sees. */
  datatype Event = Gave(de: De, pos: nat) | Seek(pos: nat)

  function GaveAll(got: seq<Given>): seq<Event> {
    seq(|got|, k requires 0 <= k < |got| => Gave(got[k].de, got[k].pos))
  }

  /** The list that is left after a log that began with list first: an entry must be the head
      of what is left, with a position from which exactly that is left. */
  function Left(bs: seq<Block>, first: seq<De>, log: seq<Event>): Option<seq<De>> {
    if log == [] then Some(first)
    else
      match log[|log| - 1]
      case Seek(pos) => Some(RestAt(bs, pos))
      case Gave(de, pos) =>
        match Left(bs, first, log[..|log| - 1])
        case None => None
        case Some(rest) => if rest != [] && rest[0] == de && RestAt(bs, pos) == rest then Some(rest[1..]) else None
  }

  ghost predicate Sought(bs: seq<Block>, log: seq<Event>) {
    forall k :: 0 <= k < |log| ==> Cookie(bs, log[k].pos)
  }

  lemma {:induction false} LeftSeek(bs: seq<Block>, first: seq<De>, log: seq<Event>, pos: nat)
    requires Sought(bs, log) && Cookie(bs, pos)
    ensures Left(bs, first, log + [Seek(pos)]) == Some(RestAt(bs, pos)) && Sought(bs, log + [Seek(pos)])
  {
    hide RestAt, Cookie;
  }

  lemma {:induction false} LeftAfter(bs: seq<Block>, first: seq<De>, log: seq<Event>, was: seq<De>, got: seq<Given>, rest: seq<De>)
    requires Left(bs, first, log) == Some(was) && Sought(bs, log) && Handed(bs, was, got, rest)
    ensures Left(bs, first, log + GaveAll(got)) == Some(rest) && Sought(bs, log + GaveAll(got))
    decreases |got|
  {
    hide RestAt, Cookie;
    if got == [] {
      assert log + GaveAll(got) == log;
    } else {
      var g, got' := got[|got| - 1], got[..|got| - 1];
      assert was[|got'|..] == [g.de] + rest;
      LeftAfter(bs, first, log, was, got', was[|got'|..]);
      var log' := log + GaveAll(got);
      assert log'[..|log'| - 1] == log + GaveAll(got');
    }
  }

  lemma {:induction false} StartIsCookie(bs: seq<Block>, ends: seq<nat>)
    requires Cache(bs, ends)
    ensures Cookie(bs, 0) && RestAt(bs, 0) == WalkAll(bs, 0)
  {
    Split(0, 0);
  }

  /** A read of directory entries on a plain list, where an index is all there is to a position: what
      a caller is to see is entry i, or that it is at i now. */
  datatype Seen = Entry(i: nat) | At(i: nat)

  function Entries(c: nat, n: nat): (s: seq<Seen>)
    ensures |s| == n && forall j :: 0 <= j < n ==> s[j] == Entry(c + j)
  {
    seq(n, j requires 0 <= j < n => Entry(c + j))
  }

  /** The requests on a list of n entries, from entry c on: what is seen, and where that ends. */
  function Play(n: nat, c: nat, reqs: seq<Req>): (r: (seq<Seen>, nat))
    requires c <= n
    ensures r.1 <= n && forall k :: 0 <= k < |r.0| ==> r.0[k].i <= n && (r.0[k].Entry? ==> r.0[k].i < n)
  {
    if reqs == [] then ([], c)
    else
      var (log, at) := Play(n, c, reqs[..|reqs| - 1]);
      Played(n, log, at, reqs[|reqs| - 1])
  }

  function Played(n: nat, log: seq<Seen>, at: nat, req: Req): (seq<Seen>, nat)
    requires at <= n
  {
    match req
    case Read(budget) =>
      var m := if budget < n - at then budget else n - at;
      (log + Entries(at, m), at + m)
    case Rewind => (log + [At(0)], 0)
    case Back(k) => if k < |log| then (log + [At(log[k].i)], log[k].i) else (log, at)
  }

  /** The log shows what is to be seen of the list es. */
  ghost predicate Shows(bs: seq<Block>, es: seq<De>, log: seq<Event>, seen: seq<Seen>) {
    |log| == |seen| && forall k :: 0 <= k < |log| ==> ShowsOne(bs, es, log[k], seen[k])
  }

  ghost predicate ShowsOne(bs: seq<Block>, es: seq<De>, e: Event, s: Seen) {
    && s.i <= |es| && RestAt(bs, e.pos) == es[s.i..]
    && (s.Entry? <==> e.Gave?) && (e.Gave? ==> s.i < |es| && e.de == es[s.i])
  }

  /** One read more. */
  lemma {:induction false} ShowsRead(bs: seq<Block>, es: seq<De>, log: seq<Event>, seen: seq<Seen>, at: nat, got: seq<Given>,
                                     rest: seq<De>)
    requires Shows(bs, es, log, seen) && at <= |es| && Handed(bs, es[at..], got, rest)
    ensures |got| <= |es| - at && Shows(bs, es, log + GaveAll(got), seen + Entries(at, |got|)) && rest == es[at + |got|..]
  {
    hide RestAt, Cookie;
    var log', seen' := log + GaveAll(got), seen + Entries(at, |got|);
    forall k | 0 <= k < |log'| ensures ShowsOne(bs, es, log'[k], seen'[k]) {
      if k >= |log| {
        var j := k - |log|;
        assert got[j].de == es[at..][j] && es[at..][j..] == es[at + j..];
      }
    }
  }

  lemma {:induction false} HandedSize(bs: seq<Block>, first: seq<De>, got: seq<Given>, rest: seq<De>)
    requires Handed(bs, first, got, rest)
    ensures |first| == |got| + |rest|
  {
  }

  lemma {:induction false} ShowsSeek(bs: seq<Block>, es: seq<De>, log: seq<Event>, seen: seq<Seen>, pos: nat, i: nat)
    requires Shows(bs, es, log, seen) && i <= |es| && RestAt(bs, pos) == es[i..]
    ensures Shows(bs, es, log + [Seek(pos)], seen + [At(i)])
  {
    hide RestAt;
  }

  lemma {:induction false} SoughtAt(bs: seq<Block>, log: seq<Event>, k: nat)
    requires Sought(bs, log) && k < |log|
    ensures Cookie(bs, log[k].pos)
  {
  }

  lemma {:induction false} ShowsAt(bs: seq<Block>, es: seq<De>, log: seq<Event>, seen: seq<Seen>, k: nat)
    requires Shows(bs, es, log, seen)
    ensures |log| == |seen| && (k < |log| ==> seen[k].i <= |es| && RestAt(bs, log[k].pos) == es[seen[k].i..])
  {
    hide RestAt;
  }

  /** Nothing seen yet. */
  lemma {:induction false} LogStart(bs: seq<Block>, es: seq<De>, first: seq<De>, c: nat, reqs: seq<Req>)
    requires c <= |es|
    ensures Left(bs, first, []) == Some(first) && Sought(bs, []) && Shows(bs, es, [], Play(|es|, c, reqs[..0]).0) && Play(|es|, c, reqs[..0]).1 == c
  {
  }

  /** One request more. */
  lemma {:induction false} PlayStep(n: nat, c: nat, reqs: seq<Req>, i: nat)
    requires c <= n && i < |reqs|
    ensures var (log, at) := Play(n, c, reqs[..i]); Play(n, c, reqs[..i + 1]) == Played(n, log, at, reqs[i])
  {
    assert reqs[..i + 1][..i] == reqs[..i];
  }

  /** Whatever the reads ask for one after the other, they get the entries one after the other; so
      they get all when they ask for enough. */
  lemma {:induction false} PlayReads(n: nat, c: nat, reqs: seq<Req>)
    requires c <= n && forall k :: 0 <= k < |reqs| ==> reqs[k].Read?
    ensures var m := if Asked(reqs) < n - c then Asked(reqs) else n - c; Play(n, c, reqs) == (Entries(c, m), c + m)
  {
    if reqs != [] {
      PlayReads(n, c, reqs[..|reqs| - 1]);
      var before := Play(n, c, reqs[..|reqs| - 1]);
      var budget := reqs[|reqs| - 1].budget;
      EntriesJoin(c, |before.0|, if budget < n - before.1 then budget else n - before.1);
    }
  }

  /** Going back to where an entry was seen, or to the start, shows the list again from there. */
  lemma {:induction false} PlayAgain(n: nat, c: nat, reqs: seq<Req>, k: nat, budget: nat)
    requires c <= n
    ensures var seen := Play(n, c, reqs).0;
            k < |seen| ==>
              var i := seen[k].i;
              Play(n, c, reqs + [Back(k), Read(budget)]).0 ==
              seen + [At(i)] + Entries(i, if budget < n - i then budget else n - i)
    ensures Play(n, c, reqs + [Rewind, Read(budget)]).0 ==
            Play(n, c, reqs).0 + [At(0)] + Entries(0, if budget < n then budget else n)
  {
    PlayTwo(n, c, reqs, Back(k), Read(budget));
    PlayTwo(n, c, reqs, Rewind, Read(budget));
  }

  lemma {:induction false} PlayTwo(n: nat, c: nat, reqs: seq<Req>, a: Req, b: Req)
    requires c <= n
    ensures var (log, at) := Play(n, c, reqs); var (log', at') := Played(n, log, at, a);
            at' <= n && Play(n, c, reqs + [a, b]) == Played(n, log', at', b)
  {
    var two := reqs + [a, b];
    assert two[..|two| - 1] == reqs + [a];
    assert (reqs + [a])[..|reqs|] == reqs;
  }

  lemma {:induction false} EntriesJoin(c: nat, x: nat, y: nat)
    ensures Entries(c, x) + Entries(c + x, y) == Entries(c, x + y)
  {
  }

  function Asked(reqs: seq<Req>): nat
    requires forall k :: 0 <= k < |reqs| ==> reqs[k].Read?
  {
    if reqs == [] then 0 else Asked(reqs[..|reqs| - 1]) + reqs[|reqs| - 1].budget
  }

  /** What is left at a position is an end of the whole. */
  lemma {:induction false} RestIsEnd(bs: seq<Block>, ends: seq<nat>, pos: nat)
    requires Cache(bs, ends) && Cookie(bs, pos)
    ensures var es, r := RestAt(bs, 0), RestAt(bs, pos); |r| <= |es| && es[|es| - |r|..] == r
  {
    hide Cookie, CookieAt, Rest, WalkAll, Walk, Reach, Sound;
    StartIsCookie(bs, ends);
    var i, p := CookieSplit(bs, pos);
    var b0 := BeforeBlock(bs, i);
    var w := BeforeEntry(bs, ends, i, p);
    assert RestAt(bs, 0) == b0 + (w + RestAt(bs, pos)) by {
      WalkAllStep(bs, i);
    }
    assert RestAt(bs, 0) == (b0 + w) + RestAt(bs, pos);
  }

  lemma {:induction false} WalkAllStep(bs: seq<Block>, i: nat)
    requires i < |bs|
    ensures WalkAll(bs, i) == Walk(bs[i], 0) + WalkAll(bs, i + 1)
    ensures forall p :: Rest(bs, i, p) == Walk(bs[i], p) + WalkAll(bs, i + 1)
  {
  }

  lemma {:induction false} BeforeBlock(bs: seq<Block>, i: nat) returns (w: seq<De>)
    requires i <= |bs|
    ensures WalkAll(bs, 0) == w + WalkAll(bs, i)
  {
    hide Walk;
    if i == 0 {
      w := [];
    } else {
      w := BeforeBlock(bs, i - 1);
      w := w + Walk(bs[i - 1], 0);
    }
  }

  lemma {:induction false} BeforeEntry(bs: seq<Block>, ends: seq<nat>, i: nat, p: nat) returns (w: seq<De>)
    requires Cache(bs, ends) && i < |bs| && Reach(bs[i], 0, p)
    ensures Walk(bs[i], 0) == w + Walk(bs[i], p)
  {
    w := Walked(bs[i], 0, p, ends[i]);
  }

  lemma {:induction false} Walked(b: Block, off: nat, p: nat, end: nat) returns (w: seq<De>)
    requires Reach(b, off, p) && Sound(b, off, end)
    ensures Walk(b, off) == w + Walk(b, p)
    decreases p - off
  {
    hide CalcSize, Walk, DeAt;
    if off == p {
      w := [];
    } else {
      SoundStep(b, off, end);
      w := Walked(b, off + CalcSize(b[off + LEN_OFF] as int), p, end);
      w := [DeAt(b, off)] + w;
    }
  }

  class DirFile {
    const blocks: seq<Block>
    ghost const ends: seq<nat>
    // vd_last and f_pos
    var lastI: nat
    var lastP: nat
    var fPos: nat

    ghost predicate Valid()
      reads this
    {
      Cache(blocks, ends) && CookieAt(blocks, lastI, lastP) && Cookie(blocks, fPos)
    }

    constructor (bs: seq<Block>, ghost es: seq<nat>)
      requires Cache(bs, es)
      ensures Valid() && blocks == bs && fPos == 0
    {
      blocks := bs;
      ends := es;
      lastI, lastP, fPos := 0, 0, 0;
      new;
      Split(0, 0);
    }

    function CalcOffset(): nat
      reads this
    {
      lastP + DEBLK_SIZE * lastI
    }

    /** The inner loop of seek_vdir. */
    method Advance(b: Block, start: nat, ghost p: nat, ghost end: nat) returns (off: nat)
      requires Sound(b, 0, end) && Reach(b, 0, p) && (fPos == start + p || (p == 0 && fPos <= start))
      ensures off == p
    {
      off := 0;
      while !IsEnd(b, off) && start + off < fPos
        invariant Reach(b, off, p) && Sound(b, off, end) && off <= p
        decreases p - off
      {
        SoundStep(b, off, end);
        off := off + CalcSize(b[off + LEN_OFF] as int);
      }
    }

    /** seek_vdir: put the cursor where f_pos says, by walking the block of f_pos; false when
        nothing is left there. */
    method SeekVdir() returns (valid: bool)
      requires Valid()
      modifies `lastI, `lastP
      ensures Valid() && RestAt(blocks, fPos) == if valid then Rest(blocks, lastI, lastP) else []
      ensures valid ==> fPos == CalcOffset()
    {
      hide CalcSize, IsEnd, Sound, Reach, Rest, RestAt, Cookie;
      CookieIs(blocks, lastI, lastP);
      CookieIs(blocks, 0, 0);
      valid := true;
      if fPos == CalcOffset() {
        return;
      }
      lastI, lastP := 0, 0;
      if fPos == 0 {
        return;
      }
      valid := Search();
    }

    /** The search of seek_vdir, from the block of f_pos on. */
    method Search() returns (valid: bool)
      requires Valid() && lastI == lastP == 0 && fPos != 0
      modifies `lastI, `lastP
      ensures Valid() && RestAt(blocks, fPos) == if valid then Rest(blocks, lastI, lastP) else []
      ensures valid ==> fPos == CalcOffset()
    {
      hide CalcSize, IsEnd, Sound, Reach, Rest, RestAt, Cookie;
      ghost var i0, p := CookieSplit(blocks, fPos);
      valid := false;
      var i := fPos / DEBLK_SIZE;
      while i < |blocks|
        invariant i <= |blocks| && lastI == lastP == 0
        invariant i < |blocks| ==> i == i0
        invariant i == |blocks| ==> RestAt(blocks, fPos) == []
      {
        var off := Advance(blocks[i], i * DEBLK_SIZE, p, ends[i]);
        if !IsEnd(blocks[i], off) {
          valid := true;
          lastI, lastP := i, off;
          return;
        }
        RestEnd(blocks, ends, i, p);
        i := i + 1;
      }
    }

    /** The inner loop of au_fill_de: entries of one block. */
    method FillBlock(budget: nat, got0: seq<Given>, ghost first: seq<De>) returns (got: seq<Given>)
      requires Cache(blocks, ends) && lastI < |blocks| && Reach(blocks[lastI], 0, lastP) && lastP <= DEBLK_SIZE
      requires fPos == CalcOffset() && Handed(blocks, first, got0, Rest(blocks, lastI, lastP)) && |got0| <= budget
      modifies `lastP, `fPos
      ensures Reach(blocks[lastI], 0, lastP) && lastP <= DEBLK_SIZE
      ensures fPos == CalcOffset() && Handed(blocks, first, got, Rest(blocks, lastI, lastP)) && |got| <= budget
      ensures !IsEnd(blocks[lastI], lastP) ==> |got| == budget
    {
      hide CalcSize, Sound, Rest, RestAt, Cookie, Handed, Walk, DeAt;
      got := got0;
      while !IsEnd(blocks[lastI], lastP)
        invariant Reach(blocks[lastI], 0, lastP) && lastP <= DEBLK_SIZE && fPos == CalcOffset()
        invariant Handed(blocks, first, got, Rest(blocks, lastI, lastP)) && |got| <= budget
        decreases DEBLK_SIZE - lastP
      {
        RestStep(blocks, ends, lastI, lastP);
        CookieIs(blocks, lastI, lastP);
        if |got| == budget {
          return;
        }
        var de := DeAt(blocks[lastI], lastP);
        HandedOne(blocks, first, got, Rest(blocks, lastI, lastP), Given(de, fPos));
        got := got + [Given(de, fPos)];
        var l := CalcSize(blocks[lastI][lastP + LEN_OFF] as int);
        lastP := lastP + l;
        fPos := fPos + l;
      }
    }

    /** au_fill_de: hand out entries from f_pos on; filldir takes budget of them and then
        refuses. */
    method FillDe(budget: nat) returns (got: seq<Given>)
      requires Valid()
      modifies `lastI, `lastP, `fPos
      ensures Valid() && Handed(blocks, RestAt(blocks, old(fPos)), got, RestAt(blocks, fPos))
      ensures |got| == budget || (|got| < budget && RestAt(blocks, fPos) == [])
    {
      hide CalcSize, IsEnd, Sound, Rest, RestAt, Cookie, Handed, Walk;
      got := [];
      ghost var first := RestAt(blocks, fPos);
      HandedNone(blocks, first);
      var valid := SeekVdir();
      if !valid {
        return;
      }
      while true
        invariant lastI < |blocks| && Reach(blocks[lastI], 0, lastP) && lastP <= DEBLK_SIZE && fPos == CalcOffset()
        invariant Handed(blocks, first, got, Rest(blocks, lastI, lastP)) && |got| <= budget
        decreases |blocks| - lastI
      {
        got := FillBlock(budget, got, first);
        if !IsEnd(blocks[lastI], lastP) {
          RestStep(blocks, ends, lastI, lastP);
          CookieIs(blocks, lastI, lastP);
          return;
        }
        RestEnd(blocks, ends, lastI, lastP);
        if lastI < |blocks| - 1 {
          lastI := lastI + 1;
          lastP := 0;
          fPos := DEBLK_SIZE * lastI;
        } else {
          break;
        }
      }
      CookieIs(blocks, lastI, lastP);
    }

    /** One request. */
    method Answer(req: Req, log0: seq<Event>, ghost first: seq<De>, ghost seen: seq<Seen>, ghost at: nat)
      returns (log: seq<Event>)
      requires Valid() && Left(blocks, first, log0) == Some(RestAt(blocks, fPos)) && Sought(blocks, log0)
      requires at <= |RestAt(blocks, 0)| && Shows(blocks, RestAt(blocks, 0), log0, seen)
      requires RestAt(blocks, fPos) == RestAt(blocks, 0)[at..]
      modifies `lastI, `lastP, `fPos
      ensures Valid() && Left(blocks, first, log) == Some(RestAt(blocks, fPos)) && Sought(blocks, log)
      ensures var es, now := RestAt(blocks, 0), Played(|RestAt(blocks, 0)|, seen, at, req);
              Shows(blocks, es, log, now.0) && now.1 <= |es| && RestAt(blocks, fPos) == es[now.1..]
    {
      hide CookieAt, Cache, Cookie, RestAt, Handed, Shows, Left, Sought;
      log := log0;
      ghost var es, all := RestAt(blocks, 0), RestAt(blocks, fPos);
      match req {
        case Read(budget) =>
          var got := FillDe(budget);
          HandedSize(blocks, all, got, RestAt(blocks, fPos));
          LeftAfter(blocks, first, log, all, got, RestAt(blocks, fPos));
          ShowsRead(blocks, es, log, seen, at, got, RestAt(blocks, fPos));
          log := log + GaveAll(got);
        case Rewind =>
          StartIsCookie(blocks, ends);
          fPos := 0;
          LeftSeek(blocks, first, log, 0);
          ShowsSeek(blocks, es, log, seen, 0, 0);
          log := log + [Seek(0)];
        case Back(k) =>
          ShowsAt(blocks, es, log, seen, k);
          if k < |log| {
            SoughtAt(blocks, log, k);
            fPos := log[k].pos;
            LeftSeek(blocks, first, log, fPos);
            ShowsSeek(blocks, es, log, seen, fPos, seen[k].i);
            log := log + [Seek(fPos)];
          }
      }
    }

    /** Any schedule of reads, each refused after some entries, and of seeks back to positions
        handed out before (or the start): what is seen is what the same requests give on a plain list. */
    method Serve(reqs: seq<Req>) returns (log: seq<Event>)
      requires Valid()
      modifies `lastI, `lastP, `fPos
      ensures Valid() && Left(blocks, RestAt(blocks, old(fPos)), log) == Some(RestAt(blocks, fPos))
      ensures var es, left := RestAt(blocks, 0), |RestAt(blocks, old(fPos))|;
              left <= |es| && Shows(blocks, es, log, Play(|es|, |es| - left, reqs).0)
    {
      hide CookieAt, Cache, Cookie, RestAt, Shows, Play, Left, Sought;
      log := [];
      ghost var first, es := RestAt(blocks, fPos), RestAt(blocks, 0);
      RestIsEnd(blocks, ends, fPos);
      ghost var c := |es| - |first|;
      LogStart(blocks, es, first, c, reqs);
      for i := 0 to |reqs|
        invariant Valid() && Left(blocks, first, log) == Some(RestAt(blocks, fPos)) && Sought(blocks, log)
        invariant Shows(blocks, es, log, Play(|es|, c, reqs[..i]).0) && RestAt(blocks, fPos) == es[Play(|es|, c, reqs[..i]).1..]
      {
        ghost var was := Play(|es|, c, reqs[..i]);
        PlayStep(|es|, c, reqs, i);
        log := Answer(reqs[i], log, first, was.0, was.1);
      }
      assert reqs[..|reqs|] == reqs;
    }
  }

  function Handouts(log: seq<Event>): seq<De>
    requires forall k :: 0 <= k < |log| ==> log[k].Gave?
  {
    seq(|log|, k requires 0 <= k < |log| => log[k].de)
  }

  /** What a correct log says: the entries handed out since some point, with what is left now,
      are what was left at that point; after a seek, all that followed the sought position. */
  lemma {:induction false} NothingLost(bs: seq<Block>, first: seq<De>, log: seq<Event>, i: nat, rest: seq<De>)
    requires i <= |log| && forall k :: i <= k < |log| ==> log[k].Gave?
    requires Left(bs, first, log) == Some(rest)
    ensures Left(bs, first, log[..i]) == Some(Handouts(log[i..]) + rest)
    ensures 0 < i && log[i - 1].Seek? ==> RestAt(bs, log[i - 1].pos) == Handouts(log[i..]) + rest
    decreases |log|
  {
    hide RestAt;
    if i == |log| {
      assert log[..i] == log && Handouts(log[i..]) + rest == rest;
    } else {
      var log', e := log[..|log| - 1], log[|log| - 1];
      var was := Left(bs, first, log');
      assert was.Some? && was.value == [e.de] + was.value[1..];
      NothingLost(bs, first, log', i, [e.de] + rest);
      assert log'[..i] == log[..i];
      assert Handouts(log'[i..]) + ([e.de] + rest) == Handouts(log[i..]) + rest;
    }
  }

  /** Block after block, the walk finds what was put in. */
  lemma {:induction false} WalkConcat(bs: seq<Block>, ents: seq<seq<De>>, i: nat)
    requires |bs| == |ents| && i <= |bs| && forall j :: 0 <= j < |bs| ==> Walk(bs[j], 0) == ents[j]
    ensures Flat(ents[..i]) + WalkAll(bs, i) == WalkAll(bs, 0)
  {
    hide Walk;
    if i > 0 {
      WalkConcat(bs, ents, i - 1);
      assert ents[..i][..i - 1] == ents[..i - 1];
      assert WalkAll(bs, i - 1) == ents[i - 1] + WalkAll(bs, i);
      assert (Flat(ents[..i - 1]) + ents[i - 1]) + WalkAll(bs, i) == Flat(ents[..i - 1]) + (ents[i - 1] + WalkAll(bs, i));
    }
  }

  lemma {:induction false} PackedIsCache(bs: seq<Block>, ents: seq<seq<De>>, ends: seq<nat>)
    requires 0 < |bs| == |ents| == |ends| && CalcSize(0) <= DEBLK_SIZE - ends[|bs| - 1]
    requires forall i :: 0 <= i < |bs| ==> Packed(bs[i], 0, ents[i], ends[i])
    ensures Cache(bs, ends) && WalkAll(bs, 0) == Flat(ents)
  {
    hide CalcSize, Packed, Walk;
    forall i | 0 <= i < |bs| ensures Walk(bs[i], 0) == ents[i] && Sound(bs[i], 0, ends[i]) {
      WalkPacked(bs[i], 0, ents[i], ends[i]);
    }
    WalkConcat(bs, ents, |bs|);
    assert ents[..|bs|] == ents && WalkAll(bs, |bs|) == [];
  }

  /** copy_vdir: the blocks are copied; on an error the copy is emptied (reinit_vdir). */
  method CopyVdir(src: W.Vdir) returns (err: int, bs: seq<Block>, ghost ends: seq<nat>)
    requires src.Valid() && src.Room()
    ensures err == 0 || err == -ENOMEM
    ensures Cache(bs, ends) && WalkAll(bs, 0) == if err == 0 then src.Contents() else []
    ensures !FAULTS ==> err == 0
  {
    hide CalcSize, Packed, Walk, WalkAll, Cache;
    bs := [];
    ends := src.ends;
    var i := 0;
    while i < |src.deblk|
      invariant i == |bs| <= |src.deblk|
      invariant forall k :: 0 <= k < i ==> bs[k] == src.deblk[k][..]
    {
      err := LowerFault();
      if err != 0 {
        bs := [src.deblk[0][..][LEN_OFF := 0]];
        ends := [0];
        EmptyCache(bs[0]);
        return -ENOMEM, bs, ends;
      }
      bs := bs + [src.deblk[i][..]];
      i := i + 1;
    }
    err := 0;
    PackedIsCache(bs, src.ents, ends);
  }

  lemma {:induction false} EmptyCache(b: Block)
    requires b[LEN_OFF] == 0
    ensures Cache([b], [0]) && WalkAll([b], 0) == []
  {
    assert IsEnd(b, 0) && Packed(b, 0, [], 0);
    assert [b][0] == b;
    assert WalkAll([b], 1) == [];
  }

  /** From append_de to filldir: whatever was appended is what reads hand out from the start,
      under every schedule of refusals and seeks. */
  method ReadBack(v: W.Vdir, reqs: seq<Req>) returns (err: int, log: seq<Event>, bs: seq<Block>)
    requires v.Valid() && v.Room()
    ensures err == 0 ==> RestAt(bs, 0) == v.Contents() && Left(bs, v.Contents(), log).Some?
    ensures err == 0 ==> Shows(bs, v.Contents(), log, Play(|v.Contents()|, 0, reqs).0)
    ensures !FAULTS ==> err == 0
  {
    hide Cache, Packed, WalkAll, RestAt, Left, Shows, Play;
    ghost var ends;
    log := [];
    err, bs, ends := CopyVdir(v);
    if err != 0 {
      return;
    }
    StartIsCookie(bs, ends);
    var f := new DirFile(bs, ends);
    log := f.Serve(reqs);
  }
}
