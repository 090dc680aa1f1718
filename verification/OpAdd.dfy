/** i_op_add.c and wr_dir: adding a name on a writable branch. */
module OpAdd {
  import opened Names
  import opened Stack
  import opened Lookup
  import opened Fresh
  import opened Edit
  import U = Union

  /** lkup_neg: the name must not exist on branch b. */
  method LkupNeg(u: U.Union, d: Dentry, b: nat) returns (err: int)
    requires b < |d.di.h| && b < |u.br|
    modifies u`failed, u`lastErr, d
    ensures old(u.failed) <= u.failed <= old(u.failed) + 1 && (err == 0 ==> u.failed == old(u.failed))
    ensures U.Same(old(u.failed), u.failed, err, u.lastErr) && U.Calm(old(u.failed), u.failed, old(u.lastErr), u.lastErr)
    ensures err <= 0
    ensures err != 0 ==> d.di == old(d.di)
    ensures err == 0 ==> d.key !in u.br[b].ents
    ensures err == 0 ==>
              d.di == old(d.di).(bstart := if b < old(d.di.bstart) then b else old(d.di.bstart),
                                 bend := if old(d.di.bend) < b then b else old(d.di.bend),
                                 h := old(d.di.h)[b := Neg])
    ensures !FAULTS && d.key !in u.br[b].ents ==> err == 0
  {
    var slot;
    err, slot := u.Lkup(b, d.key);
    if err != 0 {
      return;
    }
    if slot.Pos? {
      return -EIO;
    }
    if b < d.di.bstart {
      d.di := d.di.(bstart := b);
    }
    if d.di.bend < b {
      d.di := d.di.(bend := b);
    }
    d.di := d.di.(h := d.di.h[b := Neg]);
  }

  /** Where a new entry goes: the entry's own branch, or the source's if that is higher. */
  function Wanted(bstart: int, srcBstart: int): int {
    if 0 <= srcBstart < bstart then srcBstart else bstart
  }

  /** wr_dir(add_entry): the branch on which a new entry is made, with its parent copied up
      there and the dentry negative there. srcBstart is -1 without a source. */
  method WrDir(u: U.Union, d: Dentry, srcBstart: int) returns (err: int)
    requires u.AtRest() && d.key.dir in u.dirs
    requires 0 <= d.di.bstart <= d.di.bend < |u.br| == |d.di.h|
    modifies u`dirs, u`failed, u`lastErr, d
    ensures var t := U.Target(u.br, old(u.dirs)[d.key.dir], Wanted(old(d.di.bstart), srcBstart));
            && (t < 0 ==> err == t && u.dirs == old(u.dirs) && d.di == old(d.di))
            && (t >= 0 ==> Grown(old(u.dirs), u.dirs, d.key.dir, t))
            && (err >= 0 ==> err == t)
    ensures old(u.failed) <= u.failed && (err >= 0 ==> u.failed == old(u.failed))
    ensures U.Same(old(u.failed), u.failed, if err < 0 then err else 0, u.lastErr) && U.Calm(old(u.failed), u.failed, old(u.lastErr), u.lastErr)
    ensures err >= 0 && err == old(d.di.bstart) ==> u.dirs == old(u.dirs) && d.di == old(d.di)
    ensures err >= 0 && err != old(d.di.bstart) ==>
              && err < |old(u.dirs)[d.key.dir].h| == |u.br|
              && u.dirs == old(u.dirs)[d.key.dir := WithDir(old(u.dirs)[d.key.dir], err)]
              && d.key !in u.br[err].ents
              // leading slots without an entry are gone, and there is one negative slot
              && |d.di.h| == |u.br|
              && d.di == Trimmed(old(d.di)).(bstart := err, bend := if Trimmed(old(d.di)).bend < err then err else Trimmed(old(d.di)).bend,
                                             h := Trimmed(old(d.di)).h[err := Neg])
    ensures var t := U.Target(u.br, old(u.dirs)[d.key.dir], Wanted(old(d.di.bstart), srcBstart));
            !FAULTS && 0 <= t < |u.br| && (t == old(d.di.bstart) || d.key !in u.br[t].ents) ==> err == t
  {
    var p := u.dirs[d.key.dir];
    var bstart := d.di.bstart;
    var bcpup := bstart;
    if 0 <= srcBstart < bstart {
      bcpup := srcBstart;
    }
    U.TargetFacts(u.br, p, bcpup);
    bcpup := u.TestRo(p, bcpup);
    if bcpup < 0 || bcpup == bstart {
      return bcpup;
    }
    d.UpdateDbstart();
    err := 0;
    if p.H(bcpup) == Null {
      err := u.CpupDirs(d.key.dir, bcpup);
    } else {
      assert u.dirs == u.dirs[d.key.dir := WithDir(p, bcpup)];
    }
    if err == 0 {
      err := LkupNeg(u, d, bcpup);
    }
    if err == 0 {
      err := bcpup;
    }
  }

  /** On the branches down to the directory's first, a name that is not visible is absent,
      and its whiteout is there iff the lookup met it there. */
  lemma {:induction false} NegWh(br: seq<Branch>, dirs: Dirs, k: Key, t: nat)
    requires AtRest(br, dirs) && Plain(k) && k.dir in dirs && t <= dirs[k.dir].bstart
    requires Vis(br, dirs[k.dir], k, 0) == None
    ensures t < |br| && k !in br[t].ents
    ensures Wh(k) in br[t].ents <==> WhStop(br, dirs[k.dir], k, dirs[k.dir].bstart, None) == t
    ensures Wh(k) in br[t].ents ==> br[t].Whable() && br[t].ents[Wh(k)].typ.REG?
  {
    var p := dirs[k.dir];
    assert NeverBoth(br[t]) && MarksOk(br[t]) && NoOrphans(br[t], dirs, t);
    AboveBstart(br, p, k);
    WhBound(br, p, k, p.bstart, None);
    if t == p.bstart {
      assert p.On(t);
      WhBound(br, p, k, t + 1, None);
    } else {
      assert !p.On(t);
    }
  }

  lemma {:induction false} WhBound(br: seq<Branch>, p: DInfo, k: Key, b: nat, typ: Option<FType>)
    requires b <= |br| == |p.h|
    ensures var w := WhStop(br, p, k, b, typ); w == -1 || b <= w < |br|
    decreases |br| - b
  {
    if b < |br| {
      WhBound(br, p, k, b + 1, typ);
      WhBound(br, p, k, b + 1, Some(DIR));
    }
  }

  /** The stack after k has been made an entry e of branch t, and its whiteout there removed. */
  function Added(br: seq<Branch>, t: nat, k: Key, e: Ent): seq<Branch>
    requires t < |br|
  {
    var x := Put(br, t, k, e);
    if Wh(k) in br[t].ents then Del(x, t, Wh(k)) else x
  }

  /** Nothing, except that a whiteout of k that was there may be another file now. */
  ghost predicate Restored(br: seq<Branch>, br': seq<Branch>, t: nat, k: Key)
    requires t < |br|
  {
    br' == br || (Wh(k) in br[t].ents && br' == Put(br, t, Wh(k), U.MARK))
  }

  lemma {:induction false} AddedVis(br: seq<Branch>, dirs: Dirs, k: Key, e: Ent, t: nat)
    requires AtRest(br, dirs) && Plain(k) && k.dir in dirs
    requires t < |br| && dirs[k.dir].On(t) && Clear(br, dirs[k.dir], k, 0, t)
    ensures var br' := Added(br, t, k, e);
            SameExcept(br, br', dirs, {k}) && Vis(br', dirs[k.dir], k, 0) == Some(e)
  {
    var p, br' := dirs[k.dir], Added(br, t, k, e);
    assert OnlyAt(br, br', t);
    EditSame(br, br', t, dirs, {k});
    DecidedAt(br, br', t, p, k);
    assert CellAt(br', p, k, t) == Hit(e);
  }

  lemma {:induction false} AddedRest(br: seq<Branch>, dirs: Dirs, k: Key, e: Ent, t: nat)
    requires AtRest(br, dirs) && Plain(k) && k.dir in dirs
    requires t < |br| && dirs[k.dir].On(t)
    ensures AtRest(Added(br, t, k, e), dirs)
  {
    var br' := Added(br, t, k, e);
    assert NeverBoth(br[t]) && MarksOk(br[t]) && NoOrphans(br[t], dirs, t);
    assert NeverBoth(br'[t]) && MarksOk(br'[t]) && NoOrphans(br'[t], dirs, t);
    forall j | 0 <= j < |br'| && j != t ensures NeverBoth(br'[j]) && MarksOk(br'[j]) && NoOrphans(br'[j], dirs, j) {
      assert br'[j] == br[j];
      assert NeverBoth(br[j]) && MarksOk(br[j]) && NoOrphans(br[j], dirs, j);
    }
  }

  /** What a successful creation promises: the view gains exactly the new object. */
  lemma {:induction false} AddOutcome(br: seq<Branch>, dirs: Dirs, k: Key, e: Ent, t: nat)
    requires AtRest(br, dirs) && Plain(k) && k.dir in dirs && t <= dirs[k.dir].bstart
    requires Vis(br, dirs[k.dir], k, 0) == None
    ensures var br', dirs' := Added(br, t, k, e), dirs[k.dir := WithDir(dirs[k.dir], t)];
            AtRest(br', dirs') && View(br', dirs') == View(br, dirs)[k := ObjOf(e)]
  {
    var p, dirs' := dirs[k.dir], dirs[k.dir := WithDir(dirs[k.dir], t)];
    GrowKeeps(br, dirs, k.dir, t);
    GrowDirOk(|br|, p, t);
    AboveNew(br, dirs, k, t);
    AddedVis(br, dirs', k, e, t);
    AddedRest(br, dirs', k, e, t);
    ViewBound(br, Added(br, t, k, e), dirs', k, e);
  }

  lemma {:induction false} AboveNew(br: seq<Branch>, dirs: Dirs, k: Key, t: nat)
    requires AtRest(br, dirs) && k.dir in dirs && t <= dirs[k.dir].bstart
    ensures |WithDir(dirs[k.dir], t).h| == |br| && Clear(br, WithDir(dirs[k.dir], t), k, 0, t)
  {
    forall j | 0 <= j < t ensures CellAt(br, WithDir(dirs[k.dir], t), k, j) == Skip {
      GrowDirOk(|br|, dirs[k.dir], t);
    }
  }

  /** A made-up directory merges with nothing: it has exactly one contributing branch, even
      when a whiteout hid lower directories of its name, since it is then made opaque. */
  lemma {:induction false} MkdirOutcome(br: seq<Branch>, dirs: Dirs, k: Key, e: Ent, t: nat)
    requires AtRest(br, dirs) && Plain(k) && k.dir in dirs && t <= dirs[k.dir].bstart
    requires Vis(br, dirs[k.dir], k, 0) == None
    requires e.typ == DIR && (Wh(k) in br[t].ents ==> e.opq)
    ensures var br', p' := Added(br, t, k, e), WithDir(dirs[k.dir], t);
            DirOk(|br'|, p') && Merged(br', p', k) == [t]
  {
    var p, p', br' := dirs[k.dir], WithDir(dirs[k.dir], t), Added(br, t, k, e);
    NegWh(br, dirs, k, t);
    GrowDirOk(|br|, p, t);
    GrowVis(br, dirs, k.dir, t, k);
    AboveNew(br, dirs, k, t);
    DecidedAt(br, br, t, p', k);
    DecidedAt(br, br', t, p', k);
    assert p'.bstart == t;
    assert CellAt(br', p', k, t) == Hit(e);
    if !Opaque(br'[t], e) {
      assert Wh(k) !in br[t].ents && CellAt(br, p', k, t) == Skip;
      NothingMerges(br', p', k, t + 1);
    }
  }

  /** The entries of directory nd on a branch are in what stands there as k, a directory. */
  ghost predicate Fits(br: seq<Branch>, k: Key, nd: Dir) {
    forall j, x :: 0 <= j < |br| && x in br[j].ents && x.dir == nd ==> k in br[j].ents && br[j].ents[k].typ == DIR
  }

  /** The new directory, with what a lookup finds for it, is one more directory at rest, and has
      nothing in it, whatever is left in old lower directories of its name. */
  lemma {:induction false} NewDirEmpty(br: seq<Branch>, dirs: Dirs, k: Key, e: Ent, t: nat, nd: Dir)
    requires AtRest(br, dirs) && Plain(k) && k.dir in dirs && t <= dirs[k.dir].bstart
    requires Vis(br, dirs[k.dir], k, 0) == None
    requires e.typ == DIR && (Wh(k) in br[t].ents ==> e.opq)
    requires nd !in dirs && Fits(br, k, nd)
    ensures var br', dirs' := Added(br, t, k, e), dirs[k.dir := WithDir(dirs[k.dir], t)];
            && AtRest(br', dirs') && DirOk(|br'|, dirs'[k.dir])
            && var di := FreshInfo(br', dirs'[k.dir], k);
            && AtRest(br', dirs'[nd := di]) && DirOk(|br'|, di) && DirsOk(|br'|, dirs'[nd := di])
            && (forall n :: Vis(br', di, Key(nd, n), 0) == None)
            && View(br', dirs'[nd := di]) == View(br', dirs')
  {
    hide View, Vis;
    var br', dirs' := Added(br, t, k, e), dirs[k.dir := WithDir(dirs[k.dir], t)];
    var p' := dirs'[k.dir];
    AddOutcome(br, dirs, k, e, t);
    MkdirOutcome(br, dirs, k, e, t);
    NoneAbove(br, dirs, k, t, nd);
    NewTop(br', p', k, t);
    var di := FreshInfo(br', p', k);
    forall j, x | 0 <= j <= t && x in br'[j].ents ensures x.dir != nd {
      assert x == k || x in br[j].ents;
    }
    EmptyDir(br', dirs', nd, di, t);
  }

  lemma {:induction false} NoneAbove(br: seq<Branch>, dirs: Dirs, k: Key, t: nat, nd: Dir)
    requires AtRest(br, dirs) && Plain(k) && k.dir in dirs && t <= dirs[k.dir].bstart
    requires Vis(br, dirs[k.dir], k, 0) == None && Fits(br, k, nd)
    ensures t < |br| && forall j, x :: 0 <= j <= t && x in br[j].ents ==> x.dir != nd
  {
    forall j | 0 <= j <= t ensures j < |br| && k !in br[j].ents {
      NegWh(br, dirs, k, j);
    }
  }

  /** The lookup of a directory that merges one branch only. */
  lemma {:induction false} NewTop(br: seq<Branch>, p: DInfo, k: Key, t: nat)
    requires DirOk(|br|, p) && Merged(br, p, k) == [t] && t < |br|
    requires k in br[t].ents && br[t].ents[k].typ == DIR
    ensures var di := FreshInfo(br, p, k);
            && DirOk(|br|, di) && di.DbTailDir() == t && forall j :: 0 <= j < |br| ==> (di.On(j) <==> j == t)
  {
    hide Vis;
    AboveBstart(br, p, k);
    MergeVis(br, p, k, p.bstart);
    FreshPositive(br, p, k);
    FreshDirOk(br, p, k);
    var di := FreshInfo(br, p, k);
    assert di.On(t);
  }

  lemma {:induction false} EmptyDir(br: seq<Branch>, dirs: Dirs, nd: Dir, di: DInfo, t: nat)
    requires AtRest(br, dirs) && nd !in dirs && DirOk(|br|, di) && di.DbTailDir() == t < |br|
    requires forall j :: 0 <= j < |br| ==> (di.On(j) <==> j == t)
    requires forall j, x :: 0 <= j <= t && x in br[j].ents ==> x.dir != nd
    ensures AtRest(br, dirs[nd := di]) && View(br, dirs[nd := di]) == View(br, dirs)
    ensures forall n :: Vis(br, di, Key(nd, n), 0) == None
  {
    var dirs' := dirs[nd := di];
    forall b | 0 <= b < |br| ensures NeverBoth(br[b]) && MarksOk(br[b]) && NoOrphans(br[b], dirs', b) {
      assert NoOrphans(br[b], dirs, b);
    }
    forall n ensures Vis(br, di, Key(nd, n), 0) == None {
      forall j | 0 <= j < |br| ensures CellAt(br, di, Key(nd, n), j) == Skip {
      }
      VisSkip(br, di, Key(nd, n), 0, |br|);
    }
    forall k: Key ensures Denotes(br, dirs', k) == Denotes(br, dirs, k) {
      if k.dir == nd {
        assert k == Key(nd, k.name);
      }
    }
  }

  lemma {:induction false} NothingMerges(br: seq<Branch>, p: DInfo, k: Key, b: nat)
    requires b <= |br| == |p.h| && Vis(br, p, k, b) == None
    ensures Merge(br, p, k, b, Some(DIR)) == []
    decreases |br| - b
  {
    if b < |br| && CellAt(br, p, k, b) == Skip {
      NothingMerges(br, p, k, b + 1);
    }
  }

  /** What a failed and reverted creation promises. */
  lemma {:induction false} RestoredOutcome(br: seq<Branch>, br': seq<Branch>, dirs: Dirs, t: nat, k: Key)
    requires AtRest(br, dirs) && t < |br| && Restored(br, br', t, k) && Plain(k)
    ensures AtRest(br', dirs) && View(br', dirs) == View(br, dirs)
  {
    assert OnlyAt(br, br', t);
    EditSame(br, br', t, dirs, {});
    ViewKept(br, br', dirs);
    assert NeverBoth(br[t]) && MarksOk(br[t]) && NoOrphans(br[t], dirs, t);
    assert NeverBoth(br'[t]) && MarksOk(br'[t]) && NoOrphans(br'[t], dirs, t);
    forall j | 0 <= j < |br'| && j != t ensures NeverBoth(br'[j]) && MarksOk(br'[j]) && NoOrphans(br'[j], dirs, j) {
      assert br'[j] == br[j];
      assert NeverBoth(br[j]) && MarksOk(br[j]) && NoOrphans(br[j], dirs, j);
    }
  }

  /** lock_hdir_lkup_wh: choose the branch and see whether it holds the whiteout to remove. */
  method LockHdirLkupWh(u: U.Union, d: Dentry) returns (err: int, bcpup: int, wh: bool)
    requires u.AtRest() && u.FreshNeg(d)
    modifies u`dirs, u`failed, u`lastErr, d
    ensures err <= 0
    ensures var t := U.Target(u.br, old(u.dirs)[d.key.dir], old(d.di.bstart));
            && t <= old(d.di.bstart)
            && (if t < 0 then err == t && u.dirs == old(u.dirs) else Grown(old(u.dirs), u.dirs, d.key.dir, t))
            && (err == 0 ==> bcpup == t)
    ensures old(u.failed) <= u.failed && (err == 0 ==> u.failed == old(u.failed))
    ensures U.Same(old(u.failed), u.failed, err, u.lastErr) && U.Calm(old(u.failed), u.failed, old(u.lastErr), u.lastErr)
    ensures err == 0 ==>
              && 0 <= bcpup < |u.br|
              && u.dirs == old(u.dirs)[d.key.dir := WithDir(old(u.dirs)[d.key.dir], bcpup)]
              && d.key !in u.br[bcpup].ents && (wh <==> Wh(d.key) in u.br[bcpup].ents)
              && (wh ==> U.File(u.br[bcpup], Wh(d.key)))
    ensures !FAULTS && U.Target(u.br, old(u.dirs)[d.key.dir], old(d.di.bstart)) >= 0 ==> err == 0
  {
    ghost var p, b0 := u.dirs[d.key.dir], d.di.bstart;
    ghost var t := U.Target(u.br, p, b0);
    U.TargetFacts(u.br, p, b0);
    if t >= 0 {
      NegWh(u.br, u.dirs, d.key, t);
    }
    wh := false;
    err := WrDir(u, d, -1);
    bcpup := err;
    if err < 0 {
      return;
    }
    assert bcpup == b0 ==> u.dirs == u.dirs[d.key.dir := WithDir(p, b0)];
    err := 0;
    if bcpup == d.di.bwh {
      var slot;
      err, slot := u.Lkup(bcpup, Wh(d.key));
      wh := slot.Pos?;
    }
  }

  /** epilog: remove the whiteout and set up the inode, or put the whiteout back. */
  method Epilog(u: U.Union, k: Key, t: nat, wh: bool) returns (err: int)
    requires t < |u.br| && (wh <==> Wh(k) in u.br[t].ents)
    modifies u`br, u`failed, u`lastErr
    ensures err <= 0 && OnlyAt(old(u.br), u.br, t)
    ensures err == 0 ==> u.br == if wh then Del(old(u.br), t, Wh(k)) else old(u.br)
    ensures err != 0 && err != -EIO ==> Restored(old(u.br), u.br, t, k)
    ensures forall x :: x != Wh(k) && x in old(u.br)[t].ents ==> x in u.br[t].ents && u.br[t].ents[x] == old(u.br)[t].ents[x]
    ensures !FAULTS && (wh ==> U.File(old(u.br)[t], Wh(k))) ==> err == 0
    // after one failure it is put back, and has not failed without any
    ensures old(u.failed) <= u.failed && (err == 0 ==> u.failed == old(u.failed))
    ensures U.Calm(old(u.failed), u.failed, old(u.lastErr), u.lastErr)
    ensures (wh ==> U.File(old(u.br)[t], Wh(k))) && err != 0 ==> u.failed > old(u.failed)
    ensures (wh ==> U.File(old(u.br)[t], Wh(k))) && err != 0 && u.failed == old(u.failed) + 1 ==>
              err == u.lastErr && Restored(old(u.br), u.br, t, k)
  {
    err := 0;
    if wh {
      err := u.VfsUnlink(t, Wh(k));
      if err != 0 {
        return;
      }
    }
    err := u.Fault();
    if err == 0 || !wh {
      return;
    }
    var rerr := u.SimpleCreateWh(t, k);
    if rerr != 0 {
      err := -EIO;
    }
    DelPut(old(u.br), t, Wh(k));
  }

  lemma {:induction false} DelPut(br: seq<Branch>, t: nat, k: Key)
    requires t < |br|
    ensures Put(Del(br, t, k), t, k, U.MARK) == Put(br, t, k, U.MARK)
  {
    assert (br[t].ents - {k})[k := U.MARK] == br[t].ents[k := U.MARK];
  }

  /** Undoing the entry after the whiteout has been put back. */
  lemma {:induction false} UndoPut(br: seq<Branch>, t: nat, k: Key, e: Ent, br': seq<Branch>)
    requires t < |br| && k !in br[t].ents && k != Wh(k)
    requires Restored(Put(br, t, k, e), br', t, k)
    ensures t < |br'| && Restored(br, Del(br', t, k), t, k)
  {
    PutDel(br, t, k, e);
    if br' != Put(br, t, k, e) {
      assert Wh(k) in br[t].ents;
      assert br[t].ents[k := e][Wh(k) := U.MARK] - {k} == br[t].ents[Wh(k) := U.MARK];
    }
  }

  /** The new entry in the place of its whiteout, or everything as before. */
  method CreateEntry(u: U.Union, t: nat, k: Key, e: Ent, wh: bool) returns (err: int)
    requires t < |u.br| && k !in u.br[t].ents && k != Wh(k) && (wh <==> Wh(k) in u.br[t].ents)
    modifies u`br, u`failed, u`lastErr
    ensures err <= 0 && OnlyAt(old(u.br), u.br, t)
    ensures err == 0 ==> u.br == Added(old(u.br), t, k, e)
    ensures err != 0 && err != -EIO ==> Restored(old(u.br), u.br, t, k)
    ensures !FAULTS && (wh ==> U.File(old(u.br)[t], Wh(k))) ==> err == 0
    ensures old(u.failed) <= u.failed
    ensures (wh ==> U.File(old(u.br)[t], Wh(k))) && e.typ != DIR && err != 0 && u.failed <= old(u.failed) + 1 ==>
              Restored(old(u.br), u.br, t, k) && U.Same(old(u.failed), u.failed, err, u.lastErr)
  {
    ghost var br0 := u.br;
    err := u.VfsCreate(t, k, e);
    if err != 0 {
      return;
    }
    err := Epilog(u, k, t, wh);
    if err != 0 {
      ghost var br1 := u.br;
      var rerr := u.VfsUnlink(t, k);
      if rerr != 0 {
        err := -EIO;
      } else if Restored(Put(br0, t, k, e), br1, t, k) {
        UndoPut(br0, t, k, e, br1);
      }
    }
  }

  /** add_simple: create(2), mknod(2) and symlink(2). AddOutcome and RestoredOutcome say
      what the states it leaves mean. */
  method AddSimple(u: U.Union, d: Dentry, e: Ent) returns (err: int)
    requires u.AtRest() && u.FreshNeg(d) && e.typ != DIR
    modifies u, d
    ensures err <= 0
    ensures old(u.failed) <= u.failed
    // when no more than one lower call failed nothing is left behind
    ensures var t := U.Target(old(u.br), old(u.dirs)[d.key.dir], old(d.di.bstart));
            t >= 0 && err != 0 && u.failed <= old(u.failed) + 1 ==>
              t < |old(u.br)| && Restored(old(u.br), u.br, t, d.key) && U.Same(old(u.failed), u.failed, err, u.lastErr)
    ensures var t := U.Target(old(u.br), old(u.dirs)[d.key.dir], old(d.di.bstart));
            if t < 0 then err == -EROFS && u.br == old(u.br) && u.dirs == old(u.dirs)
            else t <= old(d.di.bstart) < |u.br| && OnlyAt(old(u.br), u.br, t) && Grown(old(u.dirs), u.dirs, d.key.dir, t)
                 && (err != 0 && err != -EIO ==> Restored(old(u.br), u.br, t, d.key))
    ensures err == 0 ==>
              var k, p := d.key, old(u.dirs)[d.key.dir];
              var t := U.Target(old(u.br), p, old(d.di.bstart));
              0 <= t < |u.br| && u.br == Added(old(u.br), t, k, e) && u.dirs == old(u.dirs)[k.dir := WithDir(p, t)]
    ensures !FAULTS ==> (err == 0 <==> U.Target(old(u.br), old(u.dirs)[d.key.dir], old(d.di.bstart)) >= 0)
  {
    U.TargetFacts(u.br, u.dirs[d.key.dir], d.di.bstart);
    var t, wh;
    err, t, wh := LockHdirLkupWh(u, d);
    if err != 0 {
      return;
    }
    err := CreateEntry(u, t, d.key, e, wh);
  }

  /** create_diropq and remove_diropq. */
  method SetDiropq(u: U.Union, t: nat, k: Key, opq: bool) returns (err: int)
    requires t < |u.br| && k in u.br[t].ents
    modifies u`br, u`failed, u`lastErr
    ensures err <= 0
    ensures u.br == if err == 0 then Put(old(u.br), t, k, old(u.br)[t].ents[k].(opq := opq)) else old(u.br)
    ensures !FAULTS ==> err == 0
    ensures u.failed == old(u.failed) + if err == 0 then 0 else 1
    ensures U.Same(old(u.failed), u.failed, err, u.lastErr) && U.Calm(old(u.failed), u.failed, old(u.lastErr), u.lastErr)
  {
    err := u.Fault();
    if err == 0 {
      u.br := Put(u.br, t, k, u.br[t].ents[k].(opq := opq));
    }
  }

  lemma {:induction false} PutPut(br: seq<Branch>, t: nat, k: Key, e: Ent, e': Ent)
    requires t < |br|
    ensures Put(Put(br, t, k, e), t, k, e') == Put(br, t, k, e')
    ensures Del(Put(br, t, k, e), t, k) == Del(br, t, k)
  {
    assert br[t].ents[k := e][k := e'] == br[t].ents[k := e'];
    assert br[t].ents[k := e] - {k} == br[t].ents - {k};
  }

  /** remove_diropq and rmdir of a directory that could not be finished. */
  method RevertDir(u: U.Union, t: nat, k: Key, diropq: bool, err0: int) returns (err: int)
    requires t < |u.br| && k in u.br[t].ents && u.br[t].ents[k].typ == DIR && err0 < 0
    modifies u`br, u`failed, u`lastErr
    ensures err < 0 && OnlyAt(old(u.br), u.br, t)
    ensures err != -EIO ==> err == err0 && u.br == Del(old(u.br), t, k)
    // without another failure it is all taken back, and with one it gives up
    ensures old(u.failed) <= u.failed
    ensures U.Calm(old(u.failed), u.failed, old(u.lastErr), u.lastErr)
    ensures u.failed > old(u.failed) ==> err == -EIO
    ensures var e := old(u.br)[t].ents[k];
            u.failed == old(u.failed) && U.Bare(old(u.br)[t], e.file) && k.dir != e.file && (e.opq ==> diropq) ==>
              err == err0 && u.br == Del(old(u.br), t, k)
  {
    err := err0;
    if diropq {
      ghost var br1 := u.br;
      var rerr := SetDiropq(u, t, k, false);
      if rerr != 0 {
        err := -EIO;
      }
      PutPut(br1, t, k, br1[t].ents[k].(opq := false), U.MARK);
    }
    var rerr := u.VfsRmdir(t, k, u.br[t].ents[k].file);
    if rerr != 0 {
      err := -EIO;
    }
  }

  /** The lower directory, opaque if asked for, or nothing. */
  method MakeLowerDir(u: U.Union, t: nat, k: Key, file: nat, diropq: bool) returns (err: int)
    requires t < |u.br| && k !in u.br[t].ents
    modifies u`br, u`failed, u`lastErr
    ensures err <= 0 && OnlyAt(old(u.br), u.br, t)
    ensures err == 0 ==> u.br == Put(old(u.br), t, k, Ent(DIR, file, diropq))
    ensures !FAULTS ==> err == 0
    ensures err != 0 && err != -EIO ==> u.br == old(u.br)
    ensures old(u.failed) <= u.failed && (err == 0 ==> u.failed == old(u.failed))
    ensures U.Calm(old(u.failed), u.failed, old(u.lastErr), u.lastErr)
    ensures U.Bare(old(u.br)[t], file) && k.dir != file && err != 0 && u.failed <= old(u.failed) + 1 ==>
              u.br == old(u.br) && U.Same(old(u.failed), u.failed, err, u.lastErr)
  {
    var e := Ent(DIR, file, false);
    err := u.VfsCreate(t, k, e);
    if err == 0 && diropq {
      err := SetDiropq(u, t, k, true);
      if err != 0 {
        err := RevertDir(u, t, k, false, err);
      }
      PutPut(old(u.br), t, k, e, e.(opq := true));
      PutDel(old(u.br), t, k, e);
    }
  }

  /** The new directory in the place of its whiteout, or everything as before. */
  method CreateDir(u: U.Union, t: nat, k: Key, file: nat, wh: bool, diropq: bool) returns (err: int)
    requires t < |u.br| && k !in u.br[t].ents && k != Wh(k) && (wh <==> Wh(k) in u.br[t].ents)
    modifies u`br, u`failed, u`lastErr
    ensures err <= 0 && OnlyAt(old(u.br), u.br, t)
    ensures err == 0 ==> u.br == Added(old(u.br), t, k, Ent(DIR, file, diropq))
    ensures err != 0 && err != -EIO ==> Restored(old(u.br), u.br, t, k)
    ensures !FAULTS && (wh ==> U.File(old(u.br)[t], Wh(k))) ==> err == 0
    ensures old(u.failed) <= u.failed
    ensures U.Bare(old(u.br)[t], file) && k.dir != file && (wh ==> U.File(old(u.br)[t], Wh(k))) ==>
              err != 0 && u.failed <= old(u.failed) + 1 ==>
                Restored(old(u.br), u.br, t, k) && U.Same(old(u.failed), u.failed, err, u.lastErr)
  {
    ghost var br0 := u.br;
    err := MakeLowerDir(u, t, k, file, diropq);
    if err != 0 {
      return;
    }
    err := Epilog(u, k, t, wh);
    if err != 0 {
      if Restored(Put(br0, t, k, Ent(DIR, file, diropq)), u.br, t, k) {
        UndoPut(br0, t, k, Ent(DIR, file, diropq), u.br);
      }
      err := RevertDir(u, t, k, diropq, err);
    }
  }

  /** mkdir(2): the new directory is opaque if a whiteout hid the name on its branch (or
      always, if so configured). MkdirOutcome says that it then merges with nothing. */
  method AufsMkdir(u: U.Union, d: Dentry, file: nat, alwaysDiropq: bool) returns (err: int)
    requires u.AtRest() && u.FreshNeg(d)
    modifies u, d
    ensures err <= 0
    ensures old(u.failed) <= u.failed
    ensures var t := U.Target(old(u.br), old(u.dirs)[d.key.dir], old(d.di.bstart));
            0 <= t < |old(u.br)| && U.Bare(old(u.br)[t], file) && d.key.dir != file && err != 0 && u.failed <= old(u.failed) + 1 ==>
              Restored(old(u.br), u.br, t, d.key) && U.Same(old(u.failed), u.failed, err, u.lastErr)
    ensures var t := U.Target(old(u.br), old(u.dirs)[d.key.dir], old(d.di.bstart));
            if t < 0 then err == -EROFS && u.br == old(u.br) && u.dirs == old(u.dirs)
            else t <= old(d.di.bstart) < |u.br| && OnlyAt(old(u.br), u.br, t) && Grown(old(u.dirs), u.dirs, d.key.dir, t)
                 && (err != 0 && err != -EIO ==> Restored(old(u.br), u.br, t, d.key))
    ensures err == 0 ==>
              var k, p := d.key, old(u.dirs)[d.key.dir];
              var t := U.Target(old(u.br), p, old(d.di.bstart));
              && 0 <= t < |u.br|
              && u.br == Added(old(u.br), t, k, Ent(DIR, file, alwaysDiropq || Wh(k) in old(u.br)[t].ents))
              && u.dirs == old(u.dirs)[k.dir := WithDir(p, t)]
    ensures !FAULTS ==> (err == 0 <==> U.Target(old(u.br), old(u.dirs)[d.key.dir], old(d.di.bstart)) >= 0)
  {
    hide Vis, Stack.NoOrphans, Stack.MarksOk;
    U.TargetFacts(u.br, u.dirs[d.key.dir], d.di.bstart);
    var t, wh;
    err, t, wh := LockHdirLkupWh(u, d);
    if err != 0 {
      return;
    }
    var diropq := wh || alwaysDiropq;
    err := CreateDir(u, t, d.key, file, wh, diropq);
  }
}
