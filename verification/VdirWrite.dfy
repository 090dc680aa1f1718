/** vdir.c: appending entries to the blocks of a vdir, in place. */
module VdirWrite {
  import opened Names
  import opened Util
  import opened VdirPack

  /** set_deblk_end: a zero length, if there is room for a header. */
  method SetDeblkEnd(blk: array<Byte>, p: nat) returns (err: int)
    requires blk.Length == DEBLK_SIZE && p <= DEBLK_SIZE
    modifies blk
    ensures err == 0 <==> CalcSize(0) <= DEBLK_SIZE - p
    ensures blk[..p] == old(blk[..p]) && IsEnd(blk[..], p)
  {
    err := -1;
    if CalcSize(0) <= DEBLK_SIZE - p {
      blk[p + LEN_OFF] := 0;
      err := 0;
    }
  }

  /** The stores of append_de: header, then name. */
  method WriteDe(blk: array<Byte>, p: nat, e: De)
    requires blk.Length == DEBLK_SIZE && DeOk(e) && p + CalcSize(|e.name|) <= DEBLK_SIZE
    modifies blk
    ensures blk[..p] == old(blk[..p])
    ensures EntryAt(blk[..], p, e)
  {
    var ino := Bytes(e.ino, INO_SIZE);
    forall i | 0 <= i < INO_SIZE {
      blk[p + i] := ino[i];
    }
    blk[p + TYPE_OFF] := e.typ;
    blk[p + LEN_OFF] := |e.name| as Byte;
    forall i | 0 <= i < |e.name| {
      blk[p + NAME_OFF + i] := e.name[i];
    }
    assert blk[..][p..p + INO_SIZE] == ino;
    assert blk[..][p + NAME_OFF..p + NAME_OFF + |e.name|] == e.name;
    InoFits(e.ino);
  }

  lemma {:induction false} InoFits(v: nat)
    requires v < 0x1_0000_0000_0000_0000
    ensures Value(Bytes(v, INO_SIZE)) == v
  {
    assert Pow256(8) == 256 * Pow256(7) && Pow256(7) == 256 * Pow256(6) && Pow256(6) == 256 * Pow256(5);
    assert Pow256(5) == 256 * Pow256(4) && Pow256(4) == 256 * Pow256(3) && Pow256(3) == 256 * Pow256(2);
    ValueOfBytes(v, INO_SIZE);
  }

  lemma {:induction false} FlatMore(ents: seq<seq<De>>, e: De)
    requires ents != []
    ensures var n := |ents| - 1; Flat(ents[n := ents[n] + [e]]) == Flat(ents) + [e]
  {
    var n := |ents| - 1;
    var more := ents[n := ents[n] + [e]];
    assert more[..n] == ents[..n];
  }

  class Vdir {
    // vd_deblk and vd_last; vd_nblk is the number of blocks
    var deblk: seq<array<Byte>>
    var lastI: nat
    var lastP: nat
    // what has been packed into each block, and where its terminator is
    ghost var ents: seq<seq<De>>
    ghost var ends: seq<nat>

    /** A vdir being filled: every block is packed, and the cursor stands on the terminator
        of the last one. */
    ghost predicate Valid()
      reads this, deblk
    {
      && 0 < |deblk| == |ents| == |ends|
      && (forall i, j :: 0 <= i < j < |deblk| ==> deblk[i] != deblk[j])
      && (forall i :: 0 <= i < |deblk| ==> deblk[i].Length == DEBLK_SIZE && Packed(deblk[i][..], 0, ents[i], ends[i]))
      && lastI == |deblk| - 1 && lastP == ends[lastI]
    }

    /** The terminator of the last block is a zero length, not the edge of the block. */
    predicate Room()
      reads this
    {
      CalcSize(0) <= DEBLK_SIZE - lastP
    }

    ghost function Contents(): seq<De>
      reads this
    {
      Flat(ents)
    }

    /** alloc_vdir: one block with only a terminator. */
    constructor ()
      ensures Valid() && Room() && Contents() == [] && forall i :: 0 <= i < |deblk| ==> fresh(deblk[i])
    {
      var blk := new Byte[DEBLK_SIZE];
      deblk := [blk];
      lastI, lastP := 0, 0;
      ents, ends := [[]], [0];
      new;
      var e := SetDeblkEnd(blk, 0);
      assert ents[..|ents| - 1] == [];
    }

    /** append_deblk: one more block, with a terminator at its start. */
    method AppendDeblk() returns (err: int)
      requires Valid()
      modifies this
      ensures Valid() && Contents() == old(Contents())
      ensures err == 0 || err == -ENOMEM
      ensures err == 0 ==> |deblk| > 1 && lastP == 0 && fresh(deblk[lastI]) && deblk[..lastI] == old(deblk)
      ensures err != 0 ==> deblk == old(deblk) && lastP == old(lastP)
      ensures !FAULTS ==> err == 0
    {
      hide CalcSize;
      err := LowerFault();
      if err != 0 {
        return -ENOMEM;
      }
      var blk := new Byte[DEBLK_SIZE];
      var e := SetDeblkEnd(blk, 0);
      assert forall i :: 0 <= i < |deblk| ==> deblk[i] != blk;
      deblk := deblk + [blk];
      lastI := |deblk| - 1;
      lastP := 0;
      ents := ents + [[]];
      ends := ends + [0];
      assert ents[..|ents| - 1] == old(ents);
    }

    /** The rest of append_de: write the entry, move the cursor, write the terminator. */
    method Store(e: De) returns (short: int)
      requires Valid() && DeOk(e) && lastP + CalcSize(|e.name|) <= DEBLK_SIZE
      modifies this, deblk[lastI]
      ensures Valid() && deblk == old(deblk) && Contents() == old(Contents()) + [e]
      ensures short == 0 <==> Room()
      ensures lastP == old(lastP) + CalcSize(|e.name|)
    {
      hide CalcSize, EntryAt, Laid, IsEnd, Packed, Flat;
      var blk, p := deblk[lastI], lastP;
      ghost var b := blk[..];
      WriteDe(blk, p, e);
      ghost var b1 := blk[..];
      lastP := p + CalcSize(|e.name|);
      short := SetDeblkEnd(blk, lastP);
      PackedAppend(b, b1, blk[..], ents[lastI], p, e);
      FlatMore(ents, e);
      ents := ents[lastI := ents[lastI] + [e]];
      ends := ends[lastI := lastP];
      assert forall i :: 0 <= i < |deblk| - 1 ==> deblk[i][..] == old(deblk[i][..]);
    }

    /** append_de: the entry goes where the terminator stands, or into a new block. An error
        can leave the entry written when only the new last block is missing. */
    method AppendDe(e: De) returns (err: int)
      requires Valid() && DeOk(e)
      modifies this, deblk
      ensures Valid() && old(deblk) <= deblk
      ensures forall i :: |old(deblk)| <= i < |deblk| ==> fresh(deblk[i])
      ensures err == 0 ==> Contents() == old(Contents()) + [e] && Room()
      ensures err != 0 ==> err == -ENOMEM
      ensures err != 0 ==> Contents() == old(Contents()) || Contents() == old(Contents()) + [e]
      // a block is added only for want of room, for the entry or for the terminator behind it
      ensures var end := old(lastP) + CalcSize(|e.name|);
        end + CalcSize(0) <= DEBLK_SIZE ==> deblk == old(deblk) && (err == 0 ==> lastP == end)
      ensures !FAULTS ==> err == 0
    {
      hide CalcSize, Packed;
      if CalcSize(|e.name|) > DEBLK_SIZE - lastP {
        err := AppendDeblk();
        if err != 0 {
          return;
        }
        NameFits(e);
      }
      // the dehstr of the hash list
      err := LowerFault();
      if err != 0 {
        return -ENOMEM;
      }
      var short := Store(e);
      if short != 0 {
        err := AppendDeblk();
      }
    }

    /** Any sequence of append_de calls: the vdir holds exactly what was appended, in order. */
    method AppendAll(es: seq<De>) returns (err: int, ghost n: nat)
      requires Valid() && forall k :: 0 <= k < |es| ==> DeOk(es[k])
      modifies this, deblk
      ensures Valid() && old(deblk) <= deblk && n <= |es|
      ensures forall i :: |old(deblk)| <= i < |deblk| ==> fresh(deblk[i])
      ensures Contents() == old(Contents()) + es[..n]
      ensures err == 0 ==> n == |es| && (0 < n || old(Room()) ==> Room())
      ensures !FAULTS ==> err == 0
    {
      hide CalcSize, Packed;
      err, n := 0, 0;
      var i := 0;
      while i < |es|
        invariant Valid() && old(deblk) <= deblk && n == i <= |es|
        invariant forall k :: |old(deblk)| <= k < |deblk| ==> fresh(deblk[k])
        invariant Contents() == old(Contents()) + es[..i] && (0 < i || old(Room()) ==> Room())
      {
        ghost var done := Contents();
        err := AppendDe(es[i]);
        assert es[..i + 1] == es[..i] + [es[i]];
        if err != 0 {
          n := if Contents() == done then i else i + 1;
          return;
        }
        i := i + 1;
        n := i;
      }
      assert es[..n] == es;
    }
  }

  /** The longest name fits into an empty block. */
  lemma {:induction false} NameFits(e: De)
    requires DeOk(e)
    ensures CalcSize(|e.name|) <= 272 && 272 <= DEBLK_SIZE
  {
  }
}
