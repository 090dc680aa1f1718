/** i_op_ren.c: renaming a non-directory, step by step and back. */
module OpRen {
  import opened Names
  import opened Stack
  import opened Lookup
  import opened Fresh
  import opened Edit
  import OpDel
  import OpAdd
  import U = Union

  // the identity of a file whose content is still being copied
  const UNFINISHED: nat := 0

  /** A call that fails has had a lower call fail, and one that does not has not. */
  predicate Counted(before: nat, after: nat, err: int) {
    before <= after && (err == 0 <==> after == before)
  }

  /** cpup_single: a copy of e appears as k on branch b, or nothing does. */
  method CpupSingle(u: U.Union, b: nat, k: Key, e: Ent) returns (err: int)
    requires b < |u.br| && k !in u.br[b].ents
    modifies u`br, u`failed, u`lastErr
    ensures err <= 0 && OnlyAt(old(u.br), u.br, b)
    ensures err == 0 ==> u.br == Put(old(u.br), b, k, e)
    ensures err != 0 && err != -EIO ==> u.br == old(u.br)
    ensures !FAULTS ==> err == 0
    ensures Counted(old(u.failed), u.failed, err)
    ensures U.Calm(old(u.failed), u.failed, old(u.lastErr), u.lastErr)
    ensures e.typ != DIR && err != 0 && u.failed == old(u.failed) + 1 ==> u.br == old(u.br) && err == u.lastErr
  {
    err := u.VfsCreate(b, k, if e.typ.REG? then e.(file := UNFINISHED) else e);
    if err != 0 {
      return;
    }
    OpAdd.PutPut(old(u.br), b, k, u.br[b].ents[k], e);
    PutDel(old(u.br), b, k, u.br[b].ents[k]);
    if e.typ.REG? {
      err := u.Fault();
      if err == 0 {
        u.br := Put(u.br, b, k, e);
      }
    }
    if err == 0 {
      err := u.Fault();
    }
    if err != 0 {
      PutDel(old(u.br), b, k, e);
      var rerr := u.VfsUnlink(b, k);
      if rerr != 0 {
        err := -EIO;
      }
    }
  }

  /** cpup_simple: make sure k is absent on branch b, then copy it there. */
  method CpupSimple(u: U.Union, b: nat, k: Key, e: Ent) returns (err: int)
    requires b < |u.br|
    modifies u`br, u`failed, u`lastErr
    ensures err <= 0 && OnlyAt(old(u.br), u.br, b)
    ensures err == 0 ==> k !in old(u.br)[b].ents && u.br == Put(old(u.br), b, k, e)
    ensures err != 0 && err != -EIO ==> u.br == old(u.br)
    ensures !FAULTS && k !in old(u.br)[b].ents ==> err == 0
    ensures k !in old(u.br)[b].ents ==> Counted(old(u.failed), u.failed, err)
    ensures U.Calm(old(u.failed), u.failed, old(u.lastErr), u.lastErr)
    ensures e.typ != DIR && err != 0 && old(u.failed) <= u.failed <= old(u.failed) + 1 ==>
              u.br == old(u.br) && U.Same(old(u.failed), u.failed, err, u.lastErr)
  {
    var slot;
    err, slot := u.Lkup(b, k);
    if err != 0 {
      return;
    }
    if slot.Pos? {
      return -EIO;
    }
    err := CpupSingle(u, b, k, e);
  }

  /** The branch after the rename: dst holds e, src is gone, a whiteout of src if one is
      needed, and none of dst. */
  function RenamedEnts(ents: map<Key, Ent>, src: Key, dst: Key, e: Ent, whsrc: bool): map<Key, Ent> {
    var m := ents[dst := e] - {src, Wh(dst)};
    if whsrc then m[Wh(src) := U.MARK] else m
  }

  function Renamed(br: seq<Branch>, t: nat, src: Key, dst: Key, e: Ent, whsrc: bool): seq<Branch>
    requires t < |br|
  {
    br[t := br[t].(ents := RenamedEnts(br[t].ents, src, dst, e, whsrc))]
  }

  /** What do_rename may rely on about branch t. */
  ghost predicate CanRename(br: seq<Branch>, t: nat, src: Key, dst: Key, e: Ent, atSrc: bool, dstPos: bool, whdst: bool) {
    && t < |br| && src != dst && Plain(src) && Plain(dst)
    && (if atSrc then src in br[t].ents && br[t].ents[src] == e else src !in br[t].ents)
    && (dstPos <==> dst in br[t].ents) && (dstPos ==> ObjOf(br[t].ents[dst]) != ObjOf(e))
    && Wh(src) !in br[t].ents
    && (Wh(dst) in br[t].ents ==> whdst && !dstPos && U.File(br[t], Wh(dst)))
  }

  /** vfs_rename, or copy-up under the new name; src may have been copied up before. */
  method MoveFile(u: U.Union, t: nat, src: Key, dst: Key, e: Ent, atSrc: bool, dstPos: bool) returns (err: int, bycpup: bool)
    requires CanMove(u.br, t, src, dst, e, atSrc, dstPos)
    modifies u`br, u`failed, u`lastErr
    ensures err <= 0 && OnlyAt(old(u.br), u.br, t)
    ensures err == 0 ==> u.br == old(u.br)[t := old(u.br)[t].(ents := old(u.br)[t].ents[dst := e] - {src})]
    ensures err == 0 ==> bycpup == (!atSrc && !dstPos)
    ensures !FAULTS ==> err == 0
    ensures err != 0 && err != -EIO ==>
              u.br == old(u.br) || (dstPos && !atSrc && u.br == Put(old(u.br), t, src, e))
    ensures Counted(old(u.failed), u.failed, err)
    ensures U.Calm(old(u.failed), u.failed, old(u.lastErr), u.lastErr)
    ensures e.typ != DIR && err != 0 && u.failed == old(u.failed) + 1 ==>
              err == u.lastErr && (u.br == old(u.br) || (dstPos && !atSrc && u.br == Put(old(u.br), t, src, e)))
  {
    var here := atSrc;
    bycpup := false;
    if dstPos && !atSrc {
      err := CpupSimple(u, t, src, e);
      if err != 0 {
        return;
      }
      here := true;
      assert u.br[t].ents[dst := e] - {src} == old(u.br)[t].ents[dst := e] - {src};
    }
    if here {
      err := u.VfsRename(t, src, dst);
    } else {
      bycpup := true;
      err := CpupSingle(u, t, dst, e);
      assert u.br == old(u.br) || err == -EIO || u.br[t].ents == old(u.br)[t].ents[dst := e] - {src};
    }
  }

  ghost predicate CanMove(br: seq<Branch>, t: nat, src: Key, dst: Key, e: Ent, atSrc: bool, dstPos: bool) {
    && t < |br| && src != dst
    && (if atSrc then src in br[t].ents && br[t].ents[src] == e else src !in br[t].ents)
    && (dstPos <==> dst in br[t].ents) && (dstPos ==> ObjOf(br[t].ents[dst]) != ObjOf(e))
  }

  /** The ents between creating src's whiteout and moving the file, and after the move. */
  function WithWh(ents: map<Key, Ent>, src: Key, whsrc: bool): map<Key, Ent> {
    if whsrc then ents[Wh(src) := U.MARK] else ents
  }

  function Moved(ents: map<Key, Ent>, src: Key, dst: Key, e: Ent): map<Key, Ent> {
    ents[dst := e] - {src}
  }

  lemma {:induction false} MovedFacts(ents: map<Key, Ent>, src: Key, dst: Key, e: Ent, whsrc: bool)
    requires src != dst && Plain(src) && Plain(dst) && Wh(src) !in ents
    ensures Moved(WithWh(ents, src, whsrc), src, dst, e) - {Wh(dst)} == RenamedEnts(ents, src, dst, e, whsrc)
    ensures Wh(dst) !in ents ==> Moved(WithWh(ents, src, whsrc), src, dst, e) == RenamedEnts(ents, src, dst, e, whsrc)
    ensures whsrc ==> WithWh(ents, src, whsrc) - {Wh(src)} == ents
    ensures whsrc ==> WithWh(ents, src, whsrc)[src := e] - {Wh(src)} == ents[src := e]
  {
    assert Wh(src) != Wh(dst) by {
      assert Stripped(Wh(src).name) == src.name;
    }
    assert Wh(src) != dst && Wh(src) != src && Wh(dst) != src;
  }

  /** Moving a file back undoes the move exactly, because nothing was overwritten. */
  lemma {:induction false} MoveBack(ents: map<Key, Ent>, src: Key, dst: Key, e: Ent)
    requires src != dst && dst !in ents
    ensures src in ents && ents[src] == e ==> Moved(Moved(ents, src, dst, e), dst, src, e) == ents
    ensures src !in ents ==> Moved(ents, src, dst, e) - {dst} == ents
  {
  }

  /** out_rename: take the file back. */
  method Unmove(u: U.Union, t: nat, src: Key, dst: Key, e: Ent, bycpup: bool, err0: int) returns (err: int)
    requires t < |u.br| && src != dst && err0 < 0
    requires dst in u.br[t].ents && u.br[t].ents[dst] == e && src !in u.br[t].ents
    modifies u`br, u`failed, u`lastErr
    ensures err < 0 && OnlyAt(old(u.br), u.br, t)
    ensures err != -EIO ==>
              err == err0 && u.br[t].ents == if bycpup then old(u.br)[t].ents - {dst} else Moved(old(u.br)[t].ents, dst, src, e)
    // without another failure it is, and with one it gives up
    ensures old(u.failed) <= u.failed
    ensures U.Calm(old(u.failed), u.failed, old(u.lastErr), u.lastErr)
    ensures u.failed > old(u.failed) ==> err == -EIO
    ensures e.typ != DIR && u.failed == old(u.failed) ==>
              err == err0 && u.br[t].ents == if bycpup then old(u.br)[t].ents - {dst} else Moved(old(u.br)[t].ents, dst, src, e)
  {
    err := err0;
    var rerr;
    if !bycpup {
      var slot;
      rerr, slot := u.Lkup(t, src);
      if rerr != 0 {
        return -EIO;
      }
      rerr := u.VfsRename(t, dst, src);
    } else {
      rerr := u.VfsUnlink(t, dst);
    }
    if rerr != 0 {
      err := -EIO;
    }
  }

  /** out_whsrc: remove the whiteout made for src. */
  method UnmakeWh(u: U.Union, t: nat, src: Key, whsrc: bool, err0: int) returns (err: int)
    requires t < |u.br| && err0 < 0
    modifies u`br, u`failed, u`lastErr
    ensures err < 0 && OnlyAt(old(u.br), u.br, t)
    ensures err != -EIO ==> err == err0 && u.br[t].ents == if whsrc then old(u.br)[t].ents - {Wh(src)} else old(u.br)[t].ents
    ensures old(u.failed) <= u.failed
    ensures U.Calm(old(u.failed), u.failed, old(u.lastErr), u.lastErr)
    ensures u.failed > old(u.failed) ==> err == -EIO
    ensures u.failed == old(u.failed) && (whsrc ==> U.File(old(u.br)[t], Wh(src))) ==>
              err == err0 && u.br[t].ents == if whsrc then old(u.br)[t].ents - {Wh(src)} else old(u.br)[t].ents
  {
    err := err0;
    if whsrc {
      var rerr := u.VfsUnlink(t, Wh(src));
      if rerr != 0 {
        err := -EIO;
      }
    }
  }

  /** The move, and then the whiteout of dst goes; or the file is taken back. */
  method MoveOver(u: U.Union, t: nat, src: Key, dst: Key, e: Ent, atSrc: bool, dstPos: bool, whdst: bool) returns (err: int)
    requires CanMove(u.br, t, src, dst, e, atSrc, dstPos)
    requires (Wh(dst) in u.br[t].ents ==> whdst && !dstPos && U.File(u.br[t], Wh(dst))) && Wh(dst) != src
    modifies u`br, u`failed, u`lastErr
    ensures err <= 0 && OnlyAt(old(u.br), u.br, t)
    ensures err == 0 ==> u.br[t].ents == Moved(old(u.br)[t].ents, src, dst, e) - {Wh(dst)}
    ensures err != 0 && err != -EIO ==>
              u.br == old(u.br) || (dstPos && !atSrc && u.br == Put(old(u.br), t, src, e))
    ensures !FAULTS ==> err == 0
    ensures Counted(old(u.failed), u.failed, err)
    ensures U.Calm(old(u.failed), u.failed, old(u.lastErr), u.lastErr)
    ensures e.typ != DIR && err != 0 && u.failed == old(u.failed) + 1 ==>
              err == u.lastErr && (u.br == old(u.br) || (dstPos && !atSrc && u.br == Put(old(u.br), t, src, e)))
  {
    var slot := Neg;
    err := 0;
    if whdst {
      err, slot := u.Lkup(t, Wh(dst));
    }
    if err == 0 {
      var bycpup;
      err, bycpup := MoveFile(u, t, src, dst, e, atSrc, dstPos);
      if err == 0 && slot.Pos? {
        err := u.VfsUnlink(t, Wh(dst));
        if err != 0 {
          MoveBack(old(u.br)[t].ents, src, dst, e);
          err := Unmove(u, t, src, dst, e, bycpup, err);
        }
      }
    }
  }

  /** do_rename for a non-directory: src, found as e, becomes dst on branch t. */
  method DoRename(u: U.Union, t: nat, src: Key, dst: Key, e: Ent, atSrc: bool, dstPos: bool, whsrc: bool, whdst: bool)
    returns (err: int)
    requires CanRename(u.br, t, src, dst, e, atSrc, dstPos, whdst)
    modifies u`br, u`failed, u`lastErr
    ensures err <= 0 && OnlyAt(old(u.br), u.br, t)
    ensures err == 0 ==> u.br == Renamed(old(u.br), t, src, dst, e, whsrc)
    ensures !FAULTS ==> err == 0
    ensures err != 0 && err != -EIO ==>
              u.br == old(u.br) || (dstPos && !atSrc && u.br == Put(old(u.br), t, src, e))
    // any error at all when no more than one lower call failed
    ensures old(u.failed) <= u.failed
    ensures e.typ != DIR && err != 0 && u.failed <= old(u.failed) + 1 ==>
              && (u.br == old(u.br) || (dstPos && !atSrc && u.br == Put(old(u.br), t, src, e)))
              && U.Same(old(u.failed), u.failed, err, u.lastErr)
  {
    hide RenamedEnts;
    ghost var br0, ents := u.br, u.br[t].ents;
    MovedFacts(ents, src, dst, e, whsrc);
    if whsrc {
      err := u.SimpleCreateWh(t, src);
      if err != 0 {
        return;
      }
    }
    assert u.br[t].ents == WithWh(ents, src, whsrc);
    err := MoveOver(u, t, src, dst, e, atSrc, dstPos, whdst);
    if err != 0 {
      err := UnmakeWh(u, t, src, whsrc, err);
    }
  }

  /** What a rename on branch t finds: src first held, as e, by branch b0 at or below t, and
      nothing said about dst above t; both parents hold a directory there. */
  ghost predicate Located(br: seq<Branch>, dirs: Dirs, src: Key, dst: Key, e: Ent, b0: nat, t: nat) {
    && AtRest(br, dirs) && src != dst && t <= b0
    && Plain(src) && src.dir in dirs && Plain(dst) && dst.dir in dirs
    && Topmost(br, dirs[src.dir], src, b0) && br[b0].ents[src] == e
    && Clear(br, dirs[dst.dir], dst, 0, t)
    && dirs[src.dir].On(t) && dirs[dst.dir].On(t)
  }

  lemma {:induction false} RenamedSame(br: seq<Branch>, dirs: Dirs, src: Key, dst: Key, e: Ent, t: nat, whsrc: bool)
    requires DirsOk(|br|, dirs) && t < |br| && Plain(src) && Plain(dst)
    ensures SameExcept(br, Renamed(br, t, src, dst, e, whsrc), dirs, {src, dst})
    ensures OnlyAt(br, Renamed(br, t, src, dst, e, whsrc), t)
  {
    var br' := Renamed(br, t, src, dst, e, whsrc);
    forall k: Key | Plain(k) && k !in {src, dst} ensures Agree(br[t], br'[t], k) {
      assert Stripped(Wh(k).name) == k.name;
    }
    EditSame(br, br', t, dirs, {src, dst});
  }

  lemma {:induction false} RenamedDst(br: seq<Branch>, dirs: Dirs, src: Key, dst: Key, e: Ent, b0: nat, t: nat, whsrc: bool)
    requires Located(br, dirs, src, dst, e, b0, t)
    ensures Vis(Renamed(br, t, src, dst, e, whsrc), dirs[dst.dir], dst, 0) == Some(e)
  {
    var p, br' := dirs[dst.dir], Renamed(br, t, src, dst, e, whsrc);
    RenamedSame(br, dirs, src, dst, e, t, whsrc);
    DecidedAt(br, br', t, p, dst);
    assert Stripped(Wh(src).name) == src.name && Stripped(Wh(dst).name) == dst.name;
    assert CellAt(br', p, dst, t) == Hit(e);
  }

  lemma {:induction false} RenamedSrc(br: seq<Branch>, dirs: Dirs, src: Key, dst: Key, e: Ent, b0: nat, t: nat, whsrc: bool)
    requires Located(br, dirs, src, dst, e, b0, t)
    requires whsrc == OpDel.NeedWh(br, dirs[src.dir], src, b0, t)
    ensures Vis(Renamed(br, t, src, dst, e, whsrc), dirs[src.dir], src, 0) == None <==> !whsrc || br[t].Whable()
  {
    hide SameExcept;
    var p, br' := dirs[src.dir], Renamed(br, t, src, dst, e, whsrc);
    RenamedSame(br, dirs, src, dst, e, t, whsrc);
    DecidedAt(br, br', t, p, src);
    OpDel.NoStaleWh(br, dirs, src, b0);
    assert Stripped(Wh(src).name) == src.name && Stripped(Wh(dst).name) == dst.name;
    assert src !in br'[t].ents && (Wh(src) in br'[t].ents <==> whsrc);
    if t != b0 {
      VisSkip(br, p, src, t + 1, b0);
    }
  }

  lemma {:induction false} RenamedRest(br: seq<Branch>, dirs: Dirs, src: Key, dst: Key, e: Ent, b0: nat, t: nat, whsrc: bool)
    requires Located(br, dirs, src, dst, e, b0, t)
    ensures AtRest(Renamed(br, t, src, dst, e, whsrc), dirs) <==> !whsrc || br[t].Whable()
  {
    var br' := Renamed(br, t, src, dst, e, whsrc);
    assert NeverBoth(br[t]) && MarksOk(br[t]) && NoOrphans(br[t], dirs, t);
    assert Stripped(Wh(src).name) == src.name && Stripped(Wh(dst).name) == dst.name;
    assert NoOrphans(br'[t], dirs, t);
    forall k | Plain(k) && k in br'[t].ents ensures Wh(k) !in br'[t].ents {
      assert Stripped(Wh(k).name) == k.name;
    }
    if whsrc && !br[t].Whable() {
      assert Wh(src) in br'[t].ents;
      assert !MarksOk(br'[t]);
    } else {
      forall k | Plain(k) && Wh(k) in br'[t].ents ensures br'[t].Whable() && br'[t].ents[Wh(k)].typ.REG? {
        assert Stripped(Wh(k).name) == k.name;
      }
      forall j | 0 <= j < |br'| && j != t ensures NeverBoth(br'[j]) && MarksOk(br'[j]) && NoOrphans(br'[j], dirs, j) {
        assert br'[j] == br[j];
        assert NeverBoth(br[j]) && MarksOk(br[j]) && NoOrphans(br[j], dirs, j);
      }
    }
  }

  /** Both parents copied up to branch t, the destination's first. */
  function BothGrown(dirs: Dirs, src: Dir, dst: Dir, t: nat): Dirs
    requires src in dirs && dst in dirs && t < |dirs[src].h| == |dirs[dst].h|
  {
    var dirs1 := dirs[dst := WithDir(dirs[dst], t)];
    dirs1[src := WithDir(dirs1[src], t)]
  }

  /** None, one or both of the parents have been copied up to branch t. */
  ghost predicate PartGrown(dirs: Dirs, dirs': Dirs, src: Dir, dst: Dir, t: nat) {
    && src in dirs && dst in dirs && t < |dirs[src].h| == |dirs[dst].h|
    && (dirs' == dirs || dirs' == dirs[dst := WithDir(dirs[dst], t)] || dirs' == BothGrown(dirs, src, dst, t))
  }

  /** What the dentries tell before the rename: src is a file on branch b0, dst is negative
      or another file, and t is at or above both. */
  ghost predicate Asked(br: seq<Branch>, dirs: Dirs, src: Key, dst: Key, si: DInfo, ti: DInfo, t: nat) {
    && AtRest(br, dirs) && src != dst && t <= si.bstart && t <= ti.bstart
    && Plain(src) && src.dir in dirs && Plain(dst) && dst.dir in dirs
    && FileInfo(br, dirs[src.dir], src, si)
    && (NegInfo(br, dirs[dst.dir], dst, ti) || FileInfo(br, dirs[dst.dir], dst, ti))
    && (dst in br[ti.bstart].ents && src in br[si.bstart].ents ==>
          ObjOf(br[ti.bstart].ents[dst]) != ObjOf(br[si.bstart].ents[src]))
  }

  lemma {:induction false} AskedClear(br: seq<Branch>, dirs: Dirs, src: Key, dst: Key, si: DInfo, ti: DInfo, t: nat)
    requires Asked(br, dirs, src, dst, si, ti, t)
    ensures t < |br| && t <= dirs[src.dir].DbTailDir() && t <= dirs[dst.dir].DbTailDir()
    ensures Clear(br, dirs[dst.dir], dst, 0, t)
    ensures dst in br[t].ents <==> FileInfo(br, dirs[dst.dir], dst, ti) && t == ti.bstart
    ensures Wh(dst) in br[t].ents ==> t == ti.bstart && dst !in br[t].ents && U.File(br[t], Wh(dst))
  {
    var p := dirs[dst.dir];
    assert dirs[src.dir].On(si.bstart);
    if NegInfo(br, p, dst, ti) {
      AboveBstart(br, p, dst);
      OpAdd.NegWh(br, dirs, dst, t);
      assert !FileInfo(br, p, dst, ti) by {
        assert ti.h[p.bstart] == Neg;
      }
      OpAdd.WhBound(br, p, dst, p.bstart, None);
    } else {
      assert p.On(ti.bstart);
      OpDel.NoStaleWh(br, dirs, dst, ti.bstart);
      if t < ti.bstart {
        assert CellAt(br, p, dst, t) == Skip;
        assert NoOrphans(br[t], dirs, t) && NeverBoth(br[t]) && MarksOk(br[t]);
      }
    }
  }

  /** Copying any parent up does not change where k is. */
  lemma {:induction false} GrowAny(br: seq<Branch>, dirs: Dirs, d: Dir, b: nat, k: Key, b0: nat)
    requires AtRest(br, dirs) && d in dirs && k.dir in dirs && b < |br| && b <= dirs[d].DbTailDir()
    requires Topmost(br, dirs[k.dir], k, b0)
    ensures var dirs' := dirs[d := WithDir(dirs[d], b)];
            && AtRest(br, dirs') && View(br, dirs') == View(br, dirs)
            && Topmost(br, dirs'[k.dir], k, b0)
            && Vis(br, dirs'[k.dir], k, b0 + 1) == Vis(br, dirs[k.dir], k, b0 + 1)
  {
    GrowKeeps(br, dirs, d, b);
    if k.dir == d {
      OpDel.GrowTopmost(br, dirs, b, k, b0);
    }
  }

  /** After the destination's parent has been copied up, src is still where it was. */
  lemma {:induction false} AskedGrown(br: seq<Branch>, dirs: Dirs, src: Key, dst: Key, si: DInfo, ti: DInfo, t: nat)
    requires Asked(br, dirs, src, dst, si, ti, t)
    ensures var dirs1 := dirs[dst.dir := WithDir(dirs[dst.dir], t)];
            && AtRest(br, dirs1)
            && FileInfo(br, dirs1[src.dir], src, si)
            && Vis(br, dirs1[src.dir], src, si.bstart + 1) == Vis(br, dirs[src.dir], src, si.bstart + 1)
  {
    hide AtRest, View, Vis;
    AskedClear(br, dirs, src, dst, si, ti, t);
    GrowAny(br, dirs, dst.dir, t, src, si.bstart);
  }

  lemma {:induction false} AskedLocated(br: seq<Branch>, dirs: Dirs, src: Key, dst: Key, si: DInfo, ti: DInfo, t: nat)
    requires Asked(br, dirs, src, dst, si, ti, t)
    ensures |dirs[src.dir].h| == |dirs[dst.dir].h| == |br| && t <= si.bstart < |br| && src in br[si.bstart].ents
    ensures var dirs2 := BothGrown(dirs, src.dir, dst.dir, t);
            && Located(br, dirs2, src, dst, br[si.bstart].ents[src], si.bstart, t)
            && View(br, dirs2) == View(br, dirs)
            && (OpDel.NeedWh(br, dirs2[src.dir], src, si.bstart, t) <==> OpDel.NeedWh(br, dirs[src.dir], src, si.bstart, t))
  {
    hide View, Vis;
    var dirs1 := dirs[dst.dir := WithDir(dirs[dst.dir], t)];
    AskedClear(br, dirs, src, dst, si, ti, t);
    GrowDirOk(|br|, dirs[dst.dir], t);
    GrowClear(br, dirs, dst.dir, t, dst, t);
    GrowAny(br, dirs, dst.dir, t, src, si.bstart);
    GrowDirOk(|br|, dirs1[src.dir], t);
    AgainGrown(br, dirs1, src, dst, si.bstart, t);
  }

  lemma {:induction false} AgainGrown(br: seq<Branch>, dirs1: Dirs, src: Key, dst: Key, b0: nat, t: nat)
    requires AtRest(br, dirs1) && src.dir in dirs1 && dst.dir in dirs1 && t <= b0
    requires Topmost(br, dirs1[src.dir], src, b0)
    requires t < |br| && dirs1[dst.dir].On(t) && Clear(br, dirs1[dst.dir], dst, 0, t)
    ensures var dirs2 := dirs1[src.dir := WithDir(dirs1[src.dir], t)];
            && AtRest(br, dirs2) && View(br, dirs2) == View(br, dirs1)
            && Topmost(br, dirs2[src.dir], src, b0)
            && dirs2[src.dir].On(t) && dirs2[dst.dir].On(t) && Clear(br, dirs2[dst.dir], dst, 0, t)
            && Vis(br, dirs2[src.dir], src, b0 + 1) == Vis(br, dirs1[src.dir], src, b0 + 1)
  {
    assert dirs1[src.dir].On(b0);
    GrowDirOk(|br|, dirs1[src.dir], t);
    GrowClear(br, dirs1, src.dir, t, dst, t);
    GrowAny(br, dirs1, src.dir, t, src, b0);
  }

  lemma {:induction false} AskedCan(br: seq<Branch>, dirs: Dirs, src: Key, dst: Key, si: DInfo, ti: DInfo, t: nat)
    requires Asked(br, dirs, src, dst, si, ti, t)
    ensures si.bstart < |br| && src in br[si.bstart].ents && br[si.bstart].ents[src].typ != DIR
    ensures CanRename(br, t, src, dst, br[si.bstart].ents[src], t == si.bstart, dst in br[t].ents, t == ti.bstart)
    ensures 0 <= ti.bstart <= ti.bend < |ti.h| == |br|
    ensures dst in br[t].ents <==> t == ti.bstart && ti.h[t].Pos?
  {
    var p := dirs[src.dir];
    AskedClear(br, dirs, src, dst, si, ti, t);
    OpDel.NoStaleWh(br, dirs, src, si.bstart);
    if t < si.bstart {
      assert CellAt(br, p, src, t) == Skip;
      assert NoOrphans(br[t], dirs, t) && NeverBoth(br[t]) && MarksOk(br[t]);
      assert p.On(si.bstart);
    }
  }

  /** All that a successful rename promises: dst is src's object, src is gone, nothing else
      differs; unless a whiteout was needed on a branch whose whiteouts lookup ignores. */
  lemma {:induction false} RenameOutcome(br: seq<Branch>, dirs: Dirs, src: Key, dst: Key, si: DInfo, ti: DInfo, t: nat)
    requires Asked(br, dirs, src, dst, si, ti, t)
    ensures t < |br| && si.bstart < |br| && src in br[si.bstart].ents && |dirs[src.dir].h| == |dirs[dst.dir].h| == |br|
    ensures var e, need := br[si.bstart].ents[src], OpDel.NeedWh(br, dirs[src.dir], src, si.bstart, t);
            var br', dirs' := Renamed(br, t, src, dst, e, need), BothGrown(dirs, src.dir, dst.dir, t);
            && DirsOk(|br'|, dirs')
            && (AtRest(br', dirs') <==> !need || br[t].Whable())
            && (View(br', dirs') == (View(br, dirs) - {src})[dst := ObjOf(e)] <==> !need || br[t].Whable())
  {
    hide Renamed;
    var e, need := br[si.bstart].ents[src], OpDel.NeedWh(br, dirs[src.dir], src, si.bstart, t);
    AskedLocated(br, dirs, src, dst, si, ti, t);
    var br', dirs' := Renamed(br, t, src, dst, e, need), BothGrown(dirs, src.dir, dst.dir, t);
    RenamedRest(br, dirs', src, dst, e, si.bstart, t, need);
    RenamedSrc(br, dirs', src, dst, e, si.bstart, t, need);
    RenamedDst(br, dirs', src, dst, e, si.bstart, t, need);
    RenamedSame(br, dirs', src, dst, e, t, need);
    if !need || br[t].Whable() {
      ViewMoved(br, br', dirs', src, dst, e);
    } else {
      ViewNotRemoved(br', dirs', src);
      assert src !in (View(br, dirs) - {src})[dst := ObjOf(e)];
    }
  }

  /** What a failed and reverted rename promises, wherever it stopped, and even when a
      copy of src stays behind. */
  lemma {:induction false} UnrenamedOutcome(br: seq<Branch>, dirs: Dirs, src: Key, dst: Key, si: DInfo, ti: DInfo, t: nat,
                                            br': seq<Branch>, dirs': Dirs)
    requires Asked(br, dirs, src, dst, si, ti, t) && PartGrown(dirs, dirs', src.dir, dst.dir, t)
    requires t < |br| && si.bstart < |br| && src in br[si.bstart].ents
    requires br' == br || (br' == Put(br, t, src, br[si.bstart].ents[src]) && dirs' == BothGrown(dirs, src.dir, dst.dir, t))
    ensures AtRest(br', dirs') && View(br', dirs') == View(br, dirs)
  {
    AskedClear(br, dirs, src, dst, si, ti, t);
    AskedLocated(br, dirs, src, dst, si, ti, t);
    GrowKeeps(br, dirs, dst.dir, t);
    if br' != br {
      OpDel.NoStaleWh(br, dirs', src, si.bstart);
      CopyLeft(br, dirs', src, dst, br[si.bstart].ents[src], si.bstart, t);
    }
  }

  /** A copy of src on a higher branch is src. */
  lemma {:induction false} CopyLeft(br: seq<Branch>, dirs: Dirs, src: Key, dst: Key, e: Ent, b0: nat, t: nat)
    requires Located(br, dirs, src, dst, e, b0, t) && Wh(src) !in br[t].ents
    ensures AtRest(Put(br, t, src, e), dirs) && View(Put(br, t, src, e), dirs) == View(br, dirs)
  {
    hide Stack.NeverBoth, Stack.MarksOk;
    var p, br' := dirs[src.dir], Put(br, t, src, e);
    assert OpAdd.Added(br, t, src, e) == br';
    assert Clear(br, p, src, 0, t);
    OpAdd.AddedVis(br, dirs, src, e, t);
    OpAdd.AddedRest(br, dirs, src, e, t);
    ViewBound(br, br', dirs, src, e);
    VisSkip(br, p, src, 0, b0);
    assert Denotes(br, dirs, src) == Some(ObjOf(e));
    assert View(br, dirs)[src := ObjOf(e)] == View(br, dirs);
  }

  /** The branch a rename works on. */
  function RenTarget(br: seq<Branch>, p: DInfo, dstStart: int, srcStart: int): int
    requires |br| == |p.h| && p.bstart >= 0 && 0 <= OpAdd.Wanted(dstStart, srcStart) < |br|
  {
    U.Target(br, p, OpAdd.Wanted(dstStart, srcStart))
  }

  /** The parent is on the branch where the dentry was found, or is to be created. */
  lemma {:induction false} ThereAlready(br: seq<Branch>, dirs: Dirs, k: Key, di: DInfo)
    requires AtRest(br, dirs) && Plain(k) && k.dir in dirs
    requires NegInfo(br, dirs[k.dir], k, di) || FileInfo(br, dirs[k.dir], k, di)
    ensures 0 <= di.bstart < |dirs[k.dir].h| == |br| && WithDir(dirs[k.dir], di.bstart) == dirs[k.dir]
  {
    assert dirs[k.dir].On(di.bstart);
  }

  /** Choose the branch and copy the destination's parent up to it. */
  method PrepareDst(u: U.Union, src: Dentry, dst: Dentry) returns (err: int)
    requires u.AtRest() && src != dst && src.key != dst.key
    requires u.FreshFile(src) && (u.FreshNeg(dst) || u.FreshFile(dst)) && !u.SameFile(src, dst)
    modifies u`dirs, u`failed, u`lastErr, dst
    ensures var t := RenTarget(u.br, old(u.dirs)[dst.key.dir], old(dst.di.bstart), src.di.bstart);
            && t <= src.di.bstart && t <= old(dst.di.bstart)
            && (if t < 0 then err == t == -EROFS && u.dirs == old(u.dirs)
                else PartGrown(old(u.dirs), u.dirs, src.key.dir, dst.key.dir, t))
            && (!FAULTS ==> err == t)
            && old(u.failed) <= u.failed && (err >= 0 ==> u.failed == old(u.failed))
            && U.Same(old(u.failed), u.failed, if err < 0 then err else 0, u.lastErr)
            && U.Calm(old(u.failed), u.failed, old(u.lastErr), u.lastErr)
            && (err >= 0 ==> err == t && u.dirs == old(u.dirs)[dst.key.dir := WithDir(old(u.dirs)[dst.key.dir], t)])
    ensures err >= 0 ==> Asked(u.br, old(u.dirs), src.key, dst.key, src.di, old(dst.di), err)
    ensures err >= 0 ==> err < |u.br| == |dst.di.h| && (dst.key in u.br[err].ents <==> dst.di.h[err].Pos?)
  {
    hide Vis, WithDir, U.Target, CanRename, Stack.NoOrphans, Stack.MarksOk, Stack.NeverBoth;
    ghost var br0, dirs0, si, ti := u.br, u.dirs, src.di, dst.di;
    ghost var t := RenTarget(br0, dirs0[dst.key.dir], ti.bstart, si.bstart);
    U.TargetFacts(br0, dirs0[dst.key.dir], OpAdd.Wanted(ti.bstart, si.bstart));
    if t >= 0 {
      AskedCan(br0, dirs0, src.key, dst.key, si, ti, t);
      ThereAlready(br0, dirs0, dst.key, ti);
    }
    err := OpAdd.WrDir(u, dst, src.di.bstart);
    assert dirs0[dst.key.dir := dirs0[dst.key.dir]] == dirs0;
  }

  /** Choose the branch, copy both parents up to it, and see which whiteouts matter. */
  method PrepareRename(u: U.Union, src: Dentry, dst: Dentry)
    returns (err: int, btgt: int, whsrc: bool, whdst: bool, dstPos: bool)
    requires u.AtRest() && src != dst && src.key != dst.key
    requires u.FreshFile(src) && (u.FreshNeg(dst) || u.FreshFile(dst)) && !u.SameFile(src, dst)
    modifies u`dirs, u`failed, u`lastErr, src, dst
    ensures err <= 0
    ensures var t := RenTarget(u.br, old(u.dirs)[dst.key.dir], old(dst.di.bstart), old(src.di.bstart));
            && t <= old(src.di.bstart) && t <= old(dst.di.bstart)
            && (if t < 0 then err == t == -EROFS && u.dirs == old(u.dirs)
                else PartGrown(old(u.dirs), u.dirs, src.key.dir, dst.key.dir, t))
            && (err == 0 ==> btgt == t)
            && (!FAULTS && t >= 0 ==> err == 0)
            && U.Same(old(u.failed), u.failed, err, u.lastErr) && U.Calm(old(u.failed), u.failed, old(u.lastErr), u.lastErr)
            && old(u.failed) <= u.failed && (err == 0 ==> u.failed == old(u.failed) && u.br[old(src.di.bstart)].ents[src.key].typ != DIR)
    ensures err == 0 ==>
              var b0, p := old(src.di.bstart), old(u.dirs)[src.key.dir];
              && 0 <= btgt <= b0 < |u.br| && src.key in u.br[b0].ents
              && whsrc == OpDel.NeedWh(u.br, p, src.key, b0, btgt)
              && u.dirs == BothGrown(old(u.dirs), src.key.dir, dst.key.dir, btgt)
              && CanRename(u.br, btgt, src.key, dst.key, u.br[b0].ents[src.key], btgt == b0, dstPos, whdst)
  {
    hide FileInfo, NegInfo, Vis, WithDir, U.Target, CanRename, Asked, U.Target, RenTarget, Stack.AtRest;
    ghost var br0, dirs0, si, ti := u.br, u.dirs, src.di, dst.di;
    whsrc, whdst, dstPos := false, false, false;
    var bstartDst := dst.di.bstart;
    err := PrepareDst(u, src, dst);
    btgt := err;
    if err < 0 {
      return;
    }
    AskedGrown(br0, dirs0, src.key, dst.key, si, ti, btgt);
    AskedCan(br0, dirs0, src.key, dst.key, si, ti, btgt);
    err, btgt := OpDel.WrDirNeedWh(u, src, false, btgt);
    if err < 0 {
      return;
    }
    whsrc, whdst := err > 0, bstartDst == btgt;
    dstPos := dst.di.h[btgt].Pos?;
    err := 0;
  }

  /** rename(2) of a non-directory: RenameOutcome and UnrenamedOutcome say what the states
      it leaves mean. */
  method AufsRename(u: U.Union, src: Dentry, dst: Dentry) returns (err: int)
    requires u.AtRest() && src != dst && src.key != dst.key
    requires u.FreshFile(src) && (u.FreshNeg(dst) || u.FreshFile(dst)) && !u.SameFile(src, dst)
    modifies u, src, dst
    ensures err <= 0
    ensures var t := RenTarget(old(u.br), old(u.dirs)[dst.key.dir], old(dst.di.bstart), old(src.di.bstart));
            if t < 0 then err == -EROFS && u.br == old(u.br) && u.dirs == old(u.dirs)
            else OnlyAt(old(u.br), u.br, t) && PartGrown(old(u.dirs), u.dirs, src.key.dir, dst.key.dir, t)
    ensures err == 0 ==>
              var p, b0 := old(u.dirs)[src.key.dir], old(src.di.bstart);
              var t := RenTarget(old(u.br), old(u.dirs)[dst.key.dir], old(dst.di.bstart), b0);
              && t >= 0
              && u.br == Renamed(old(u.br), t, src.key, dst.key, old(u.br)[b0].ents[src.key], OpDel.NeedWh(old(u.br), p, src.key, b0, t))
              && u.dirs == BothGrown(old(u.dirs), src.key.dir, dst.key.dir, t)
    ensures !FAULTS ==>
              (err == 0 <==> RenTarget(old(u.br), old(u.dirs)[dst.key.dir], old(dst.di.bstart), old(src.di.bstart)) >= 0)
    ensures old(u.failed) <= u.failed && U.Same(old(u.failed), u.failed, err, u.lastErr)
    ensures err != 0 && (err != -EIO || u.failed <= old(u.failed) + 1) ==>
              var b0 := old(src.di.bstart);
              var t := RenTarget(old(u.br), old(u.dirs)[dst.key.dir], old(dst.di.bstart), b0);
              u.br == old(u.br)
              || (t >= 0 && u.br == Put(old(u.br), t, src.key, old(u.br)[b0].ents[src.key])
                  && u.dirs == BothGrown(old(u.dirs), src.key.dir, dst.key.dir, t))
  {
    var bstartSrc := src.di.bstart;
    var btgt, whsrc, whdst, dstPos;
    err, btgt, whsrc, whdst, dstPos := PrepareRename(u, src, dst);
    if err != 0 {
      return;
    }
    var e := u.br[bstartSrc].ents[src.key];
    err := DoRename(u, btgt, src.key, dst.key, e, btgt == bstartSrc, dstPos, whsrc, whdst);
  }
}
