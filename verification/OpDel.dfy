/** i_op_del.c: removing a name, with a whiteout where one is needed. */
module OpDel {
  import opened Names
  import opened Stack
  import opened Lookup
  import opened Fresh
  import opened Edit
  import U = Union

  /** A whiteout on branch t is needed iff k would still be visible once its own entry on t is gone. */
  predicate NeedWh(br: seq<Branch>, p: DInfo, k: Key, bstart: nat, t: nat)
    requires bstart < |br| == |p.h|
  {
    t != bstart || Vis(br, p, k, bstart + 1).Some?
  }

  /** The next branch from b on that holds the directory. */
  function NextOn(p: DInfo, b: nat): (j: nat)
    ensures b <= j && (b <= |p.h| ==> j <= |p.h|)
    ensures forall i :: b <= i < j && i < |p.h| ==> !p.On(i)
    ensures j < |p.h| ==> p.On(j)
    decreases |p.h| - b
  {
    if |p.h| <= b || p.On(b) then b else NextOn(p, b + 1)
  }

  /** A directory is not looked for below its own branch although there may be something: a whiteout
      noted further down, when it was looked up first, makes the second lookup stop at the next
      branch for which the dentry has nothing. */
  predicate Missed(p: DInfo, di: DInfo)
    requires |p.h| == |di.h| && di.bstart >= 0
  {
    var j := NextOn(p, di.bstart + 1);
    di.bwh != -1 && (j >= |di.h| || di.h[j] == Null)
  }

  /** Whether a whiteout is judged necessary. */
  predicate Judged(br: seq<Branch>, p: DInfo, k: Key, di: DInfo, t: nat, isdir: bool)
    requires |br| == |p.h| == |di.h| && 0 <= di.bstart < |br|
  {
    NeedWh(br, p, k, di.bstart, t) && !(isdir && t == di.bstart && Missed(p, di))
  }

  /** A lookup that starts below the entry leaves what stands above. */
  lemma {:induction false} ScanKeeps(br: seq<Branch>, p: DInfo, k: Key, b: nat, allowNeg: bool, typ: Option<FType>, di: DInfo)
    requires b <= |br| == |p.h| == |di.h| && 0 <= di.bstart < b && 0 <= di.bend < |br|
    ensures var r := Scan(br, p, k, b, allowNeg, typ, di).1;
            && r.bstart == di.bstart && di.bend <= r.bend < |br|
            && r.h[di.bstart] == di.h[di.bstart]
    decreases |br| - b
  {
    hide DInfo.On, DInfo.DbTailDir, DInfo.H, Opaque, Whited;
    if b < |br| {
      var (slot, di') := Probed(br[b], k, b, allowNeg, typ, di);
      if di.H(b) != Null || !p.On(b) {
        ScanKeeps(br, p, k, b + 1, allowNeg, typ, di);
      }
      if p.On(b) && di'.bwh == -1 {
        ScanKeeps(br, p, k, b + 1, false, if slot.Pos? then Some(DIR) else typ, di');
      }
    }
  }

  /** Without a whiteout noted before, a lookup that starts below the entry finds something iff the
      name is visible there. */
  lemma {:induction false} ScanFinds(br: seq<Branch>, p: DInfo, k: Key, b: nat, allowNeg: bool, di: DInfo)
    requires b <= |br| == |p.h| == |di.h| && 0 <= di.bstart < b && di.bwh == -1
    requires forall j :: b <= j < |br| && di.h[j] != Null ==> di.h[j].Pos? && p.On(j) && CellAt(br, p, k, j).Hit?
    ensures Scan(br, p, k, b, allowNeg, None, di).0 > 0 <==> Vis(br, p, k, b).Some?
    decreases |br| - b
  {
    if b < |br| && di.h[b] == Null {
      var (slot, di') := Probed(br[b], k, b, allowNeg, None, di);
      if !p.On(b) {
        ScanFinds(br, p, k, b + 1, allowNeg, di);
      } else if di'.bwh == -1 && !slot.Pos? {
        ScanFinds(br, p, k, b + 1, false, di');
      }
    }
  }

  /** With one it looks at the next branch only, and only if it knows it already. */
  lemma {:induction false} ScanStops(br: seq<Branch>, p: DInfo, k: Key, b: nat, allowNeg: bool, di: DInfo)
    requires b <= |br| == |p.h| == |di.h| && 0 <= di.bstart < b && di.bwh != -1
    requires forall j :: b <= j < |br| && di.h[j] != Null ==> di.h[j].Pos? && p.On(j)
    ensures var j := NextOn(p, b); j <= |br| && (Scan(br, p, k, b, allowNeg, None, di).0 > 0 <==> j < |br| && di.h[j] != Null)
    decreases |br| - b
  {
    if b < |br| && !p.On(b) {
      ScanStops(br, p, k, b + 1, allowNeg, di);
    }
  }

  /** What the second lookup of a directory finds below its own branch. */
  lemma {:induction false} BelowDir(br: seq<Branch>, p: DInfo, k: Key, di: DInfo)
    requires DirOk(|br|, p) && DirInfo(br, p, k, di)
    ensures var r := Looked(br, p, k, di.bstart + 1, None, di.(bdiropq := -1));
            && r.1.bstart == di.bstart && di.bend <= r.1.bend < |br|
            && (r.0 > 0 <==> Vis(br, p, k, di.bstart + 1).Some? && !Missed(p, di))
  {
    hide Vis, Scan, CellAt, Stack.DInfo.On;
    var b0, di' := di.bstart, di.(bdiropq := -1);
    StartsAt(br, di);
    ScanKeeps(br, p, k, b0 + 1, true, None, di');
    if di.bwh == -1 {
      ScanFinds(br, p, k, b0 + 1, true, di');
    } else {
      ScanStops(br, p, k, b0 + 1, true, di');
      NextHit(br, p, k, b0 + 1);
    }
  }

  lemma {:induction false} StartsAt(br: seq<Branch>, di: DInfo)
    requires DirOk(|br|, di)
    ensures di.bstart < |di.h| && di.h[di.bstart].Pos?
  {
  }

  /** What stands on the next branch is visible from there on. */
  lemma {:induction false} NextHit(br: seq<Branch>, p: DInfo, k: Key, b: nat)
    requires b <= |br| == |p.h|
    ensures var j := NextOn(p, b); j < |br| && CellAt(br, p, k, j).Hit? ==> Vis(br, p, k, b).Some?
  {
    VisSkip(br, p, k, b, NextOn(p, b));
  }

  /** Is k visible below its own branch? Leaves no trace in a file's dentry if not. */
  method LookBelow(u: U.Union, d: Dentry, isdir: bool) returns (err: int)
    requires u.AtRest() && if isdir then u.FreshDir(d) else u.FreshFile(d)
    modifies d
    ensures err >= 0 ==> (err > 0 <==> Vis(u.br, u.dirs[d.key.dir], d.key, old(d.di.bstart) + 1).Some?
                                       && !(isdir && Missed(u.dirs[d.key.dir], old(d.di))))
    ensures err >= 0 ==> d.di.bstart == old(d.di.bstart) && |d.di.h| == |u.br|
    ensures err == 0 && !isdir ==> d.di == old(d.di).(bwh := d.di.bwh)
    ensures isdir ==> d.di.bdiropq == old(d.di.bdiropq)
    ensures !FAULTS ==> err >= 0
  {
    hide Vis, Missed, NextOn, Scan, Stack.DInfo.On, Stack.NoOrphans;
    AllWhOk(u.br, u.dirs, d.key);
    var p := u.dirs[d.key.dir];
    ghost var di0 := d.di;
    if isdir {
      BelowDir(u.br, p, d.key, d.di);
    } else {
      BelowNondir(u.br, p, d.key, d.di);
    }
    var oldBend := d.di.bend;
    var bdiropq := d.di.bdiropq;
    if isdir {
      d.di := d.di.(bdiropq := -1);
    }
    err := LkupDentry(u.br, p, d, d.di.bstart + 1, None);
    if isdir {
      d.di := d.di.(bdiropq := bdiropq);
    }
    if err == 0 {
      var newBend := d.di.bend;
      if oldBend != newBend {
        d.di := d.di.(h := d.di.h[newBend := Null], bend := oldBend);
      }
      assert !isdir ==> d.di.h == di0.h;
    }
  }

  /** wr_dir_need_wh. want < 0: choose the branch; otherwise it is chosen.
      Returns whether a whiteout is judged necessary, or an error; bcpup is the branch. */
  method WrDirNeedWh(u: U.Union, d: Dentry, isdir: bool, want: int) returns (err: int, bcpup: int)
    requires u.AtRest() && if isdir then u.FreshDir(d) else u.FreshFile(d)
    requires want <= d.di.bstart
    modifies u`dirs, u`failed, u`lastErr, d
    ensures bcpup == if want < 0 then U.Target(u.br, old(u.dirs)[d.key.dir], old(d.di.bstart)) else want
    ensures bcpup < 0 ==> err == bcpup
    ensures err < 0 ==> u.dirs == old(u.dirs)
    ensures old(u.failed) <= u.failed && (err >= 0 ==> u.failed == old(u.failed))
    ensures U.Same(old(u.failed), u.failed, if err < 0 then err else 0, u.lastErr) && U.Calm(old(u.failed), u.failed, old(u.lastErr), u.lastErr)
    ensures err >= 0 ==> 0 <= bcpup <= d.di.bstart == old(d.di.bstart) && |d.di.h| == |u.br|
    ensures err >= 0 ==> (err > 0 <==> Judged(u.br, old(u.dirs)[d.key.dir], d.key, old(d.di), bcpup, isdir))
    ensures err >= 0 ==> u.dirs == old(u.dirs)[d.key.dir := WithDir(old(u.dirs)[d.key.dir], bcpup)]
    ensures !isdir && (err == 0 || (err > 0 && bcpup != old(d.di.bstart))) ==> d.di == old(d.di).(bwh := d.di.bwh)
    ensures !FAULTS && bcpup >= 0 ==> err >= 0
  {
    hide Vis, Missed, U.Target, FreshInfo, Stack.NoOrphans;
    var p := u.dirs[d.key.dir];
    assert 0 <= d.di.bstart < |u.br|;
    U.TargetFacts(u.br, p, d.di.bstart);
    var bstart := d.di.bstart;
    bcpup := want;
    if bcpup < 0 {
      bcpup := u.TestRo(p, bstart);
      if bcpup < 0 {
        return bcpup, bcpup;
      }
    }
    if bcpup != bstart {
      err := u.CpupDirs(d.key.dir, bcpup);
      if err == 0 {
        err := 1;
      }
    } else {
      assert u.dirs == u.dirs[d.key.dir := WithDir(p, bcpup)];
      err := LookBelow(u, d, isdir);
    }
  }

  /** The stack after k, first held by branch b0, has been removed by way of branch t. */
  function Unlinked(br: seq<Branch>, k: Key, b0: nat, t: nat, need: bool): seq<Branch>
    requires b0 < |br| && t < |br|
  {
    var x := if need then Put(br, t, Wh(k), U.MARK) else br;
    if t == b0 then Del(x, t, k) else x
  }

  /** Copying the parent up does not change where k is. */
  lemma {:induction false} GrowTopmost(br: seq<Branch>, dirs: Dirs, b: nat, k: Key, b0: nat)
    requires AtRest(br, dirs) && k.dir in dirs && b < |br| && b <= dirs[k.dir].DbTailDir()
    requires Topmost(br, dirs[k.dir], k, b0)
    ensures var p' := WithDir(dirs[k.dir], b);
            && |p'.h| == |br| && Topmost(br, p', k, b0)
            && Vis(br, p', k, b0 + 1) == Vis(br, dirs[k.dir], k, b0 + 1)
  {
    var p, p' := dirs[k.dir], WithDir(dirs[k.dir], b);
    forall j | 0 <= j < |br| ensures CellAt(br, p, k, j) == CellAt(br, p', k, j) {
      GrowCell(br, dirs, k.dir, b, k, j);
    }
    VisSame(br, p, br, p', k, b0 + 1);
    forall j | 0 <= j < b0 ensures CellAt(br, p', k, j) == Skip {
      assert CellAt(br, p, k, j) == Skip;
    }
  }

  /** The name is gone iff no whiteout was needed, or one was made and the branch can hold it. */
  lemma {:induction false} UnlinkedVis(br: seq<Branch>, dirs: Dirs, k: Key, b0: nat, t: nat, made: bool)
    requires AtRest(br, dirs) && Plain(k) && k.dir in dirs
    requires Topmost(br, dirs[k.dir], k, b0) && t <= b0 && dirs[k.dir].On(t)
    ensures var br' := Unlinked(br, k, b0, t, made);
            && SameExcept(br, br', dirs, {k})
            && (Vis(br', dirs[k.dir], k, 0) == None <==> !NeedWh(br, dirs[k.dir], k, b0, t) || (made && br[t].Whable()))
  {
    hide SameExcept, Stack.NoOrphans;
    var p, br' := dirs[k.dir], Unlinked(br, k, b0, t, made);
    assert OnlyAt(br, br', t);
    EditSame(br, br', t, dirs, {k});
    DecidedAt(br, br', t, p, k);
    assert CellAt(br, p, k, t) == if t == b0 then Hit(br[t].ents[k]) else Skip;
    if t != b0 {
      VisSkip(br, p, k, t + 1, b0);
    }
    assert k !in br'[t].ents;
  }

  lemma {:induction false} UnlinkedRest(br: seq<Branch>, dirs: Dirs, k: Key, b0: nat, t: nat, need: bool)
    requires AtRest(br, dirs) && Plain(k) && k.dir in dirs
    requires Topmost(br, dirs[k.dir], k, b0) && t <= b0 && dirs[k.dir].On(t)
    ensures AtRest(Unlinked(br, k, b0, t, need), dirs) <==> !need || br[t].Whable()
  {
    var p, br' := dirs[k.dir], Unlinked(br, k, b0, t, need);
    assert CellAt(br, p, k, t) == if t == b0 then Hit(br[t].ents[k]) else Skip;
    assert NeverBoth(br[t]) && MarksOk(br[t]) && NoOrphans(br[t], dirs, t);
    assert NoOrphans(br'[t], dirs, t);
    assert NeverBoth(br'[t]);
    if need && !br[t].Whable() {
      assert Wh(k) in br'[t].ents;
      assert !MarksOk(br'[t]);
    } else {
      assert MarksOk(br'[t]);
      forall j | 0 <= j < |br'| && j != t ensures NeverBoth(br'[j]) && MarksOk(br'[j]) && NoOrphans(br'[j], dirs, j) {
        assert br'[j] == br[j];
        assert NeverBoth(br[j]) && MarksOk(br[j]) && NoOrphans(br[j], dirs, j);
      }
    }
  }

  /** Undoing the whiteout that was made for a removal that then failed. */
  method DoRevert(u: U.Union, b: nat, k: Key, err: int) returns (r: int)
    requires b < |u.br| && err < 0
    modifies u`br, u`failed, u`lastErr
    ensures u.br == old(u.br) || u.br == Del(old(u.br), b, Wh(k))
    ensures if r == err && err != -EIO then Wh(k) in old(u.br)[b].ents && u.br == Del(old(u.br), b, Wh(k)) else r == -EIO
    ensures !FAULTS && U.File(old(u.br)[b], Wh(k)) ==> r == err
    ensures old(u.failed) <= u.failed
    ensures u.failed > old(u.failed) ==> r == -EIO
    ensures u.failed == old(u.failed) && U.File(old(u.br)[b], Wh(k)) ==> r == err && u.br == Del(old(u.br), b, Wh(k))
    ensures U.Calm(old(u.failed), u.failed, old(u.lastErr), u.lastErr)
  {
    var rerr := u.VfsUnlink(b, Wh(k));
    r := if rerr == 0 then err else -EIO;
  }

  /** lock_hdir_create_wh: choose the branch and create the whiteout if it is needed. */
  method LockHdirCreateWh(u: U.Union, d: Dentry, isdir: bool) returns (err: int, t: int, need: bool)
    requires u.AtRest() && if isdir then u.FreshDir(d) else u.FreshFile(d)
    modifies u, d
    ensures err <= 0
    ensures t == U.Target(old(u.br), old(u.dirs)[d.key.dir], old(d.di.bstart))
    ensures t < 0 ==> err == t
    ensures err != 0 ==> u.br == old(u.br)
    ensures old(u.failed) <= u.failed && (err == 0 ==> u.failed == old(u.failed))
    ensures U.Same(old(u.failed), u.failed, err, u.lastErr) && U.Calm(old(u.failed), u.failed, old(u.lastErr), u.lastErr)
    ensures t < 0 ==> u.dirs == old(u.dirs)
    ensures t >= 0 ==> t <= old(d.di.bstart) && Grown(old(u.dirs), u.dirs, d.key.dir, t)
    ensures err == 0 ==>
              && t >= 0
              && need == Judged(old(u.br), old(u.dirs)[d.key.dir], d.key, old(d.di), t, isdir)
              && u.dirs == old(u.dirs)[d.key.dir := WithDir(old(u.dirs)[d.key.dir], t)]
              && d.di.bstart == old(d.di.bstart)
              && Wh(d.key) !in old(u.br)[t].ents
              && u.br == if need then Put(old(u.br), t, Wh(d.key), U.MARK) else old(u.br)
    ensures !FAULTS && t >= 0 ==> err == 0
  {
    ghost var br0, p := u.br, u.dirs[d.key.dir];
    U.TargetFacts(u.br, p, d.di.bstart);
    NoStaleWh(u.br, u.dirs, d.key, d.di.bstart);
    var e;
    e, t := WrDirNeedWh(u, d, isdir, -1);
    if e < 0 {
      return e, t, false;
    }
    need := e > 0;
    err := 0;
    if need {
      err := u.SimpleCreateWh(t, d.key);
    }
  }

  /** No whiteout of a visible name stands on its branch or above. */
  lemma {:induction false} NoStaleWh(br: seq<Branch>, dirs: Dirs, k: Key, b0: nat)
    requires AtRest(br, dirs) && Plain(k) && k.dir in dirs
    requires Topmost(br, dirs[k.dir], k, b0)
    ensures forall t :: 0 <= t <= b0 ==> Wh(k) !in br[t].ents
  {
    var p := dirs[k.dir];
    forall t | 0 <= t <= b0 ensures Wh(k) !in br[t].ents {
      assert NeverBoth(br[t]) && MarksOk(br[t]) && NoOrphans(br[t], dirs, t);
      assert p.On(b0);
      if t < b0 {
        assert CellAt(br, p, k, t) == Skip;
      }
    }
  }

  /** All that a successful unlink promises, for the state it leaves. */
  lemma {:induction false} UnlinkOutcome(br: seq<Branch>, dirs: Dirs, k: Key, b0: nat, t: nat)
    requires AtRest(br, dirs) && Plain(k) && k.dir in dirs && t <= b0
    requires Topmost(br, dirs[k.dir], k, b0)
    ensures var need, dirs' := NeedWh(br, dirs[k.dir], k, b0, t), dirs[k.dir := WithDir(dirs[k.dir], t)];
            var br' := Unlinked(br, k, b0, t, need);
            && DirsOk(|br|, dirs')
            && (AtRest(br', dirs') <==> !need || br[t].Whable())
            && (View(br', dirs') == View(br, dirs) - {k} <==> !need || br[t].Whable())
  {
    var need, dirs' := NeedWh(br, dirs[k.dir], k, b0, t), dirs[k.dir := WithDir(dirs[k.dir], t)];
    assert dirs[k.dir].On(b0);
    GrowKeeps(br, dirs, k.dir, t);
    GrowTopmost(br, dirs, t, k, b0);
    GrowDirOk(|br|, dirs[k.dir], t);
    UnlinkedRest(br, dirs', k, b0, t, need);
    UnlinkedVis(br, dirs', k, b0, t, need);
    if !need || br[t].Whable() {
      ViewRemoved(br, Unlinked(br, k, b0, t, need), dirs', k);
    } else {
      ViewNotRemoved(Unlinked(br, k, b0, t, need), dirs', k);
    }
  }

  /** unlink(2) of a non-directory: UnlinkOutcome says what the state it leaves means. */
  method AufsUnlink(u: U.Union, d: Dentry) returns (err: int)
    requires u.AtRest() && u.FreshFile(d)
    modifies u, d
    ensures err <= 0
    // the branch it works on; there is none iff all from the entry's own upwards are read-only
    ensures var t := U.Target(old(u.br), old(u.dirs)[d.key.dir], old(d.di.bstart));
            if t < 0 then err == -EROFS && u.br == old(u.br) && u.dirs == old(u.dirs)
            else OnlyAt(old(u.br), u.br, t) && Grown(old(u.dirs), u.dirs, d.key.dir, t)
    ensures err == 0 ==>
              var k, b0, p := d.key, old(d.di.bstart), old(u.dirs)[d.key.dir];
              var t := U.Target(old(u.br), p, b0);
              t >= 0 && u.br == Unlinked(old(u.br), k, b0, t, NeedWh(old(u.br), p, k, b0, t))
              && u.dirs == old(u.dirs)[k.dir := WithDir(p, t)]
    // any failure other than EIO leaves the branches as they were
    ensures err != 0 && err != -EIO ==> u.br == old(u.br)
    // so does any at all when no more than one lower call failed
    ensures old(u.failed) <= u.failed && (err != 0 && u.failed <= old(u.failed) + 1 ==> u.br == old(u.br))
    // and then the error is that call's
    ensures U.Same(old(u.failed), u.failed, err, u.lastErr)
    // and nothing but a lower failure or the want of a branch makes it fail
    ensures !FAULTS ==> (err == 0 <==> U.Target(old(u.br), old(u.dirs)[d.key.dir], old(d.di.bstart)) >= 0)
  {
    ghost var br0, dirs0, k, b0 := u.br, u.dirs, d.key, d.di.bstart;
    U.TargetFacts(br0, dirs0[k.dir], b0);
    var bstart := d.di.bstart;
    var bindex, need;
    err, bindex, need := LockHdirCreateWh(u, d, false);
    if err != 0 {
      return;
    }
    if bindex == bstart {
      err := u.VfsUnlink(bindex, d.key);
    }
    if err != 0 && need {
      PutDel(br0, bindex, Wh(k), U.MARK);
      err := DoRevert(u, bindex, d.key, err);
    }
  }
}
