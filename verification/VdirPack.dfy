/** vdir.c: directory entries packed into fixed-size blocks (64-bit ino_t). */
module VdirPack {
  import opened Util

  const DEBLK_SIZE: nat := 512
  const INO_SIZE: nat := 8
  // offsets in the packed struct: the inode number comes first
  const TYPE_OFF: nat := 8
  const LEN_OFF: nat := 9
  const NAME_OFF: nat := 10

  /** A directory entry as the caller sees it. */
  datatype De = De(ino: nat, typ: Byte, name: seq<Byte>)

  predicate DeOk(e: De) {
    e.ino < 0x1_0000_0000_0000_0000 && 1 <= |e.name| <= 255
  }

  /** The room an entry takes: header and name, rounded up to the size of ino_t. */
  function CalcSize(namelen: nat): (sz: nat)
    ensures NAME_OFF + namelen <= sz < NAME_OFF + namelen + INO_SIZE
  {
    var sz := NAME_OFF + namelen;
    if sz % INO_SIZE != 0 then sz + INO_SIZE - (sz + INO_SIZE) % INO_SIZE else sz
  }

  /** The little-endian bytes of an inode number. */
  function Bytes(v: nat, n: nat): (b: seq<Byte>)
    ensures |b| == n
  {
    if n == 0 then [] else [(v % 256) as Byte] + Bytes(v / 256, n - 1)
  }

  function Value(b: seq<Byte>): nat {
    if b == [] then 0 else b[0] as int + 256 * Value(b[1..])
  }

  function Pow256(n: nat): nat {
    if n == 0 then 1 else 256 * Pow256(n - 1)
  }

  lemma {:induction false} ValueOfBytes(v: nat, n: nat)
    requires v < Pow256(n)
    ensures Value(Bytes(v, n)) == v
  {
    if n > 0 {
      ValueOfBytes(v / 256, n - 1);
      assert Bytes(v, n)[1..] == Bytes(v / 256, n - 1);
    }
  }

  type Block = b: seq<Byte> | |b| == DEBLK_SIZE witness seq(DEBLK_SIZE, _ => 0)

  /** is_deblk_end: no room for another header, or a zero length. */
  predicate IsEnd(b: Block, off: nat) {
    CalcSize(0) <= DEBLK_SIZE - off ==> b[off + LEN_OFF] == 0
  }

  /** The entry that starts at off. */
  function DeAt(b: Block, off: nat): De
    requires !IsEnd(b, off)
    requires off + NAME_OFF + b[off + LEN_OFF] as int <= DEBLK_SIZE
  {
    De(Value(b[off..off + INO_SIZE]), b[off + TYPE_OFF],
       b[off + NAME_OFF..off + NAME_OFF + b[off + LEN_OFF] as int])
  }

  /** Entry e starts at off. */
  ghost predicate EntryAt(b: Block, off: nat, e: De) {
    DeOk(e) && !IsEnd(b, off) && b[off + LEN_OFF] as int == |e.name|
    && off + CalcSize(|e.name|) <= DEBLK_SIZE && DeAt(b, off) == e
  }

  /** From off on, block b holds the entries es, one after the other, up to end. */
  ghost predicate Laid(b: Block, off: nat, es: seq<De>, end: nat)
    decreases es
  {
    if es == [] then off == end
    else EntryAt(b, off, es[0]) && Laid(b, off + CalcSize(|es[0].name|), es[1..], end)
  }

  /** From off on, block b holds exactly the entries es, and its terminator at end. */
  ghost predicate Packed(b: Block, off: nat, es: seq<De>, end: nat) {
    Laid(b, off, es, end) && end <= DEBLK_SIZE && IsEnd(b, end)
  }

  /** Walking a block with calc_size and is_deblk_end. */
  function Walk(b: Block, off: nat): seq<De>
    decreases DEBLK_SIZE - off
  {
    if IsEnd(b, off) || DEBLK_SIZE < off + NAME_OFF + b[off + LEN_OFF] as int then []
    else [DeAt(b, off)] + Walk(b, off + CalcSize(b[off + LEN_OFF] as int))
  }

  /** The walk reads back exactly what was packed. */
  lemma {:induction false} WalkPacked(b: Block, off: nat, es: seq<De>, end: nat)
    requires Packed(b, off, es, end)
    ensures Walk(b, off) == es
    decreases es
  {
    if es != [] {
      WalkPacked(b, off + CalcSize(|es[0].name|), es[1..], end);
    }
  }

  /** Entries never cross the block. */
  lemma {:induction false} LaidEnd(b: Block, off: nat, es: seq<De>, end: nat)
    requires Laid(b, off, es, end) && off <= DEBLK_SIZE
    ensures off <= end <= DEBLK_SIZE
    decreases es
  {
    hide CalcSize;
    if es != [] {
      var next := off + CalcSize(|es[0].name|);
      assert off <= next <= DEBLK_SIZE;
      LaidEnd(b, next, es[1..], end);
    }
  }

  /** Every entry and the terminator are aligned for an inode number. */
  lemma {:induction false} LaidAligned(b: Block, off: nat, es: seq<De>, end: nat)
    requires Laid(b, off, es, end) && off % INO_SIZE == 0
    ensures end % INO_SIZE == 0
    decreases es
  {
    if es != [] {
      var sz: nat := CalcSize(|es[0].name|);
      SumAligned(off, sz);
      LaidAligned(b, off + sz, es[1..], end);
    }
  }

  lemma {:induction false} SumAligned(a: nat, b: nat)
    requires a % INO_SIZE == 0 && b % INO_SIZE == 0
    ensures (a + b) % INO_SIZE == 0
  {
  }

  /** One more entry after the last. */
  lemma {:induction false} LaidAppend(b: Block, off: nat, es: seq<De>, end: nat, e: De)
    requires Laid(b, off, es, end) && EntryAt(b, end, e)
    ensures Laid(b, off, es + [e], end + CalcSize(|e.name|))
    decreases es
  {
    hide CalcSize, EntryAt;
    if es == [] {
      LaidCons(b, off, e, [], end + CalcSize(|e.name|));
    } else {
      LaidAppend(b, off + CalcSize(|es[0].name|), es[1..], end, e);
      LaidCons(b, off, es[0], es[1..] + [e], end + CalcSize(|e.name|));
      assert es + [e] == [es[0]] + (es[1..] + [e]);
    }
  }

  lemma {:induction false} LaidCons(b: Block, off: nat, e: De, es: seq<De>, end: nat)
    requires EntryAt(b, off, e) && Laid(b, off + CalcSize(|e.name|), es, end)
    ensures Laid(b, off, [e] + es, end)
  {
    hide CalcSize, EntryAt;
    assert ([e] + es)[1..] == es;
  }

  /** Entries are made of the bytes below their end. */
  lemma {:induction false} LaidSame(b: Block, b': Block, off: nat, es: seq<De>, end: nat)
    requires Laid(b, off, es, end) && off <= DEBLK_SIZE && end <= DEBLK_SIZE && b'[..end] == b[..end]
    ensures Laid(b', off, es, end)
    decreases es
  {
    hide CalcSize;
    if es != [] {
      LaidEnd(b, off + CalcSize(|es[0].name|), es[1..], end);
      LaidSame(b, b', off + CalcSize(|es[0].name|), es[1..], end);
      SameBelow(b, b', end, off, es[0]);
    }
  }

  /** Writing one more entry where the terminator was, and a new terminator after it. */
  lemma {:induction false} PackedAppend(b: Block, b1: Block, b2: Block, es: seq<De>, end: nat, e: De)
    requires Packed(b, 0, es, end) && b1[..end] == b[..end] && EntryAt(b1, end, e)
    requires b2[..end + CalcSize(|e.name|)] == b1[..end + CalcSize(|e.name|)]
    requires IsEnd(b2, end + CalcSize(|e.name|))
    ensures Packed(b2, 0, es + [e], end + CalcSize(|e.name|))
  {
    hide CalcSize;
    LaidEnd(b, 0, es, end);
    LaidSame(b, b1, 0, es, end);
    LaidAppend(b1, 0, es, end, e);
    LaidSame(b1, b2, 0, es + [e], end + CalcSize(|e.name|));
  }

  /** An entry that lies below end is read from the bytes below end. */
  lemma {:induction false} SameBelow(b: Block, b': Block, end: nat, off: nat, e: De)
    requires end <= DEBLK_SIZE && b'[..end] == b[..end]
    requires EntryAt(b, off, e) && off + CalcSize(|e.name|) <= end
    ensures EntryAt(b', off, e)
  {
    hide CalcSize;
    SameAt(b, b', end, off + LEN_OFF);
    SameAt(b, b', end, off + TYPE_OFF);
    SameSlice(b, b', end, off, off + INO_SIZE);
    SameSlice(b, b', end, off + NAME_OFF, off + NAME_OFF + |e.name|);
  }

  lemma {:induction false} SameAt(b: Block, b': Block, end: nat, i: nat)
    requires i < end <= DEBLK_SIZE && b'[..end] == b[..end]
    ensures b'[i] == b[i]
  {
    assert b'[..end][i] == b[..end][i];
  }

  lemma {:induction false} SameSlice(b: Block, b': Block, end: nat, lo: nat, hi: nat)
    requires lo <= hi <= end <= DEBLK_SIZE && b'[..end] == b[..end]
    ensures b'[lo..hi] == b[lo..hi]
  {
    assert b'[..end][lo..hi] == b[..end][lo..hi];
  }
}
