/** What rmdir(2) does to the merged view: it may leave the directory visible, and exactly when. */
module Removal {
  import opened Names
  import opened Stack
  import opened Lookup
  import opened Fresh
  import opened Edit
  import opened Readdir
  import opened Emptiness
  import opened OpDel
  import opened OpRmdir
  import opened Namespace
  import opened Util
  import Listing
  import U = Union

  /** An empty listing: no plain name of the directory is visible. */
  lemma {:induction false} EmptyNames(br: seq<Branch>, dirs: Dirs, f: Dir, s: seq<seq<string>>, n: string)
    requires AtRest(br, dirs) && f in dirs && ReadsAll(br, dirs[f], f, s) && EmptyListing(dirs[f], s)
    requires Plain(Key(f, n))
    ensures Vis(br, dirs[f], Key(f, n), 0) == None
  {
    hide Reads, Shown;
    var p, k := dirs[f], Key(f, n);
    if Vis(br, p, k, 0).Some? {
      var j := FirstHit(br, p, k, 0);
      if Dot(n) {
        DotsApart(br, p, f, s, n, j);
      } else {
        Listing.ShownIsTopmost(br, dirs, f, s, n, j);
      }
    }
  }

  lemma {:induction false} DotsApart(br: seq<Branch>, p: DInfo, f: Dir, s: seq<seq<string>>, n: string, j: nat)
    requires ReadsAll(br, p, f, s) && j < |br| && p.On(j) && Dot(n)
    ensures Key(f, n) !in br[j].ents
  {
    assert Reads(br[j], f, s[j]);
  }

  /** Apart from trash and the names of f, the state left is the one without the name. */
  lemma {:induction false} LeftAgrees(br: seq<Branch>, br': seq<Branch>, k: Key, f: Dir, g: Dir, b0: nat, t: nat, made: bool, x: Key)
    requires b0 < |br| && t < |br| && Left(br, br', k, f, g, b0, t, made)
    requires Plain(x) && x.dir != f && x.dir != g && k.dir != f
    ensures Agree(Unlinked(br, k, b0, t, made)[t], br'[t], x)
  {
    hide Plain, Doubly;
    if Doubly(x.name) {
      DoublyApart(x);
    }
    if Doubly(Wh(x).name) {
      DoublyApart(Wh(x));
    }
  }

  lemma {:induction false} LeftVis(br: seq<Branch>, br': seq<Branch>, k: Key, f: Dir, g: Dir, b0: nat, t: nat, made: bool,
                                   p: DInfo, x: Key)
    requires b0 < |br| && t < |br| == |p.h| && Left(br, br', k, f, g, b0, t, made)
    requires Plain(x) && x.dir != f && x.dir != g && k.dir != f
    ensures Vis(br', p, x, 0) == Vis(Unlinked(br, k, b0, t, made), p, x, 0)
  {
    var mid := Unlinked(br, k, b0, t, made);
    LeftAgrees(br, br', k, f, g, b0, t, made, x);
    assert OnlyAt(mid, br', t);
    OtherName(mid, br', t, p, x);
  }

  /** The state left is at rest, the directory forgotten, unless a whiteout was made on a branch
      that does not honour it. */
  lemma {:induction false} LeftRest(br: seq<Branch>, br': seq<Branch>, dirs: Dirs, k: Key, f: Dir, g: Dir, b0: nat, t: nat, made: bool)
    requires AtRest(br, dirs) && Plain(k) && k.dir in dirs && g !in dirs && k.dir != f && k.dir != g
    requires Topmost(br, dirs[k.dir], k, b0) && t <= b0 && dirs[k.dir].On(t)
    requires Left(br, br', k, f, g, b0, t, made)
    ensures AtRest(br', dirs - {f}) <==> !made || br[t].Whable()
  {
    NoStaleWh(br, dirs, k, b0);
    TouchedRest(br, br', dirs, k, f, g, b0, t, made);
    forall j | 0 <= j < |br| && j != t ensures NeverBoth(br'[j]) && MarksOk(br'[j]) && NoOrphans(br'[j], dirs - {f}, j) {
      assert br'[j] == br[j];
      assert NeverBoth(br[j]) && MarksOk(br[j]) && NoOrphans(br[j], dirs, j);
    }
  }

  lemma {:induction false} TouchedRest(br: seq<Branch>, br': seq<Branch>, dirs: Dirs, k: Key, f: Dir, g: Dir, b0: nat, t: nat, made: bool)
    requires AtRest(br, dirs) && Plain(k) && k.dir in dirs && g !in dirs && k.dir != f && k.dir != g
    requires Topmost(br, dirs[k.dir], k, b0) && t <= b0 && dirs[k.dir].On(t) && Wh(k) !in br[t].ents
    requires Left(br, br', k, f, g, b0, t, made)
    ensures NeverBoth(br'[t]) && NoOrphans(br'[t], dirs - {f}, t)
    ensures MarksOk(br'[t]) <==> !made || br[t].Whable()
  {
    hide UpTo, Removed, Plain;
    assert NeverBoth(br[t]) && MarksOk(br[t]) && NoOrphans(br[t], dirs, t);
    assert CellAt(br, dirs[k.dir], k, t) == if t == b0 then Hit(br[t].ents[k]) else Skip;
    OrphansLeft(br, br', dirs, k, f, g, b0, t, made);
    PlainLeft(br, br', dirs, k, f, g, b0, t, made, k);
    forall x | Plain(x)
      ensures x in br'[t].ents ==> Wh(x) !in br'[t].ents
      ensures Wh(x) in br'[t].ents ==> (x == k && made) || (br[t].Whable() && br'[t].ents[Wh(x)].typ.REG?)
    {
      PlainLeft(br, br', dirs, k, f, g, b0, t, made, x);
    }
  }

  lemma {:induction false} OrphansLeft(br: seq<Branch>, br': seq<Branch>, dirs: Dirs, k: Key, f: Dir, g: Dir, b0: nat, t: nat, made: bool)
    requires DirsOk(|br|, dirs) && k.dir in dirs && g !in dirs && b0 < |br| && t < |br| && dirs[k.dir].On(t)
    requires Left(br, br', k, f, g, b0, t, made) && NoOrphans(br[t], dirs, t)
    ensures NoOrphans(br'[t], dirs - {f}, t)
  {
    hide Doubly;
    forall x | x in br'[t].ents && x.dir in dirs - {f} && x.dir != k.dir ensures x in br[t].ents {
    }
  }

  lemma {:induction false} PlainLeft(br: seq<Branch>, br': seq<Branch>, dirs: Dirs, k: Key, f: Dir, g: Dir, b0: nat, t: nat,
                                     made: bool, x: Key)
    requires b0 < |br| && t < |br| && NeverBoth(br[t]) && MarksOk(br[t]) && Plain(x) && Plain(k) && k.dir != f && k.dir != g
    requires Left(br, br', k, f, g, b0, t, made) && Wh(k) !in br[t].ents && (t != b0 ==> k !in br[t].ents)
    ensures x in br'[t].ents ==> Wh(x) !in br'[t].ents
    ensures Wh(k) in br'[t].ents <==> made
    ensures made ==> br'[t].ents[Wh(k)].typ.REG?
    ensures Wh(x) in br'[t].ents ==> x == k || (br[t].Whable() && br'[t].ents[Wh(x)].typ.REG?)
  {
    LeftAgrees(br, br', k, f, g, b0, t, made, k);
    var y := Key(f, x.name);
    assert Wh(y) == Key(f, Wh(x).name);
    if x.dir != f && x.dir != g {
      LeftAgrees(br, br', k, f, g, b0, t, made, x);
    }
  }

  /** What a successful rmdir promises: the name is gone from the view iff no whiteout was needed, or
      one was judged necessary and the branch honours it. */
  lemma {:induction false} RmdirOutcome(br: seq<Branch>, dirs: Dirs, k: Key, f: Dir, g: Dir, di: DInfo, t: nat,
                                        s: seq<seq<string>>, br': seq<Branch>)
    requires AtRest(br, dirs) && Plain(k) && k.dir in dirs && f in dirs && f != k.dir && g !in dirs
    requires DirInfo(br, dirs[k.dir], k, di) && dirs[f] == di && t <= di.bstart
    requires ReadsAll(br, di, f, s) && EmptyListing(di, s)
    requires Left(br, br', k, f, g, di.bstart, t, Judged(br, dirs[k.dir], k, di, t, true))
    ensures var p, dirs' := dirs[k.dir], dirs[k.dir := WithDir(dirs[k.dir], t)] - {f};
            var need, made := NeedWh(br, p, k, di.bstart, t), Judged(br, p, k, di, t, true);
            && DirsOk(|br'|, dirs')
            && (AtRest(br', dirs') <==> !made || br[t].Whable())
            && (View(br', dirs') == View(br, dirs) - {k} <==> !need || (made && br[t].Whable()))
  {
    hide Vis, View, UpTo, Removed, Unlinked, Judged, FreshInfo, EmptyListing, ReadsAll, Stack.NoOrphans, Stack.MarksOk, Stack.NeverBoth;
    var p, dirs1, b0 := dirs[k.dir], dirs[k.dir := WithDir(dirs[k.dir], t)], di.bstart;
    var dirs', made := dirs1 - {f}, Judged(br, p, k, di, t, true);
    Grew(br, dirs, k, b0, t);
    LeftRest(br, br', dirs1, k, f, g, b0, t, made);
    UnlinkedVis(br, dirs1, k, b0, t, made);
    LeftVis(br, br', k, f, g, b0, t, made, dirs'[k.dir], k);
    if !NeedWh(br, p, k, b0, t) || (made && br[t].Whable()) {
      forall x ensures Denotes(br', dirs', x) == Look(View(br, dirs) - {k}, x) {
        LeftDenotes(br, br', dirs, dirs1, k, f, g, b0, t, made, s, x);
      }
      ViewEq(br', dirs', View(br, dirs) - {k});
    } else {
      ViewNotRemoved(br', dirs', k);
    }
  }

  /** The parent copied up to branch t, nothing else has changed. */
  lemma {:induction false} Grew(br: seq<Branch>, dirs: Dirs, k: Key, b0: nat, t: nat)
    requires AtRest(br, dirs) && k.dir in dirs && Topmost(br, dirs[k.dir], k, b0) && t <= b0
    ensures DirsOk(|br|, dirs) && |dirs[k.dir].h| == |br|
    ensures var dirs1 := dirs[k.dir := WithDir(dirs[k.dir], t)];
            && AtRest(br, dirs1) && DirsOk(|br|, dirs1) && View(br, dirs1) == View(br, dirs)
            && Topmost(br, dirs1[k.dir], k, b0) && dirs1[k.dir].On(t)
            && NeedWh(br, dirs1[k.dir], k, b0, t) == NeedWh(br, dirs[k.dir], k, b0, t)
  {
    hide Vis, View, Stack.NoOrphans, Stack.MarksOk, Stack.NeverBoth;
    assert dirs[k.dir].On(b0);
    GrowKeeps(br, dirs, k.dir, t);
    GrowTopmost(br, dirs, t, k, b0);
    GrowDirOk(|br|, dirs[k.dir], t);
  }

  /** Any other name denotes what it did; those of f did not denote anything. */
  lemma {:induction false} LeftDenotes(br: seq<Branch>, br': seq<Branch>, dirs: Dirs, dirs1: Dirs, k: Key, f: Dir, g: Dir,
                                       b0: nat, t: nat, made: bool, s: seq<seq<string>>, x: Key)
    requires AtRest(br, dirs) && AtRest(br, dirs1) && View(br, dirs1) == View(br, dirs) && dirs1.Keys == dirs.Keys
    requires f in dirs && dirs1[f] == dirs[f] && ReadsAll(br, dirs[f], f, s) && EmptyListing(dirs[f], s)
    requires Plain(k) && k.dir in dirs && k.dir != f && g !in dirs && b0 < |br| && t < |br|
    requires OnlyAt(br, br', t) && Left(br, br', k, f, g, b0, t, made)
    requires SameExcept(br, Unlinked(br, k, b0, t, made), dirs1, {k})
    requires Vis(Unlinked(br, k, b0, t, made), dirs1[k.dir], k, 0) == None
    ensures DirsOk(|br'|, dirs1 - {f}) && Denotes(br', dirs1 - {f}, x) == Look(View(br, dirs) - {k}, x)
  {
    hide Vis, View, Left, ReadsAll, EmptyListing, Plain, Stack.NoOrphans, Stack.MarksOk, Stack.NeverBoth;
    var mid := Unlinked(br, k, b0, t, made);
    assert |mid| == |br|;
    if x != k {
      SameDenotes(br, mid, dirs1, {k}, x);
    }
    if Plain(x) && x.dir in dirs1 {
      if x.dir == f {
        EmptyNames(br, dirs, f, s, x.name);
        InView(br, dirs, x);
        assert x == Key(f, x.name);
      } else {
        LeftVis(br, br', k, f, g, b0, t, made, dirs1[x.dir], x);
      }
    }
  }

  const ENOTDIR := 20

  /** rmdir() on a flat namespace: a directory without names. */
  ghost predicate MayRmdir(v: Flat, k: Key, f: Dir) {
    k in v && v[k].typ == DIR && forall x :: x in v ==> x.dir != f
  }

  /** f is the directory known as k, looked up some time ago and perhaps copied up since, and s lists
      it; no branch has the bare prefix beside its whiteout. */
  ghost predicate KnownAs(br: seq<Branch>, dirs: Dirs, k: Key, f: Dir, s: seq<seq<string>>)
    requires DirsOk(|br|, dirs) && k.dir in dirs
  {
    && f in dirs && f != k.dir && DirInfo(br, dirs[k.dir], k, dirs[f]) && ReadsAll(br, dirs[f], f, s)
    && forall i :: 0 <= i < |br| && Key(f, WH_PFX) in br[i].ents ==> Key(f, WhName(WH_PFX)) !in br[i].ents
  }

  /** The directory known as k, with dentry di, outlives its removal. */
  ghost predicate Stays(br: seq<Branch>, p: DInfo, k: Key, di: DInfo)
    requires |br| == |p.h| == |di.h| && 0 <= di.bstart < |br|
  {
    !br[di.bstart].Rdonly() && Vis(br, p, k, di.bstart + 1).Some? && Missed(p, di)
  }

  /** What rmdir does to the union in flat terms. On success the name is gone from the view, unless
      it stays. */
  ghost predicate Rmdirs(br0: seq<Branch>, dirs0: Dirs, k: Key, f: Dir, err: int, kept: bool, br: seq<Branch>, dirs: Dirs)
    requires AtRest(br0, dirs0) && k.dir in dirs0
  {
    && Respects(br0, br)
    && (err == 0 ==> kept) && (kept ==> AtRest(br, dirs))
    && (err != 0 ==> dirs.Keys == dirs0.Keys && (kept ==> View(br, dirs) == View(br0, dirs0)))
    && (err == 0 ==> MayRmdir(View(br0, dirs0), k, f) && f in dirs0 && dirs.Keys == dirs0.Keys - {f})
    && (err == 0 ==> 0 <= dirs0[f].bstart < |br0|
                     && (View(br, dirs) == View(br0, dirs0) - {k} <==> !Stays(br0, dirs0[k.dir], k, dirs0[f])))
  }

  /** When lower calls do not fail it succeeds exactly when the directory is there and lists nothing,
      a branch can be written, and a temporary name is free on it. */
  ghost predicate Decided(br: seq<Branch>, dirs: Dirs, k: Key, f: Dir, s: seq<seq<string>>, cnt: Byte, err: int)
    requires AtRest(br, dirs) && Plain(k) && k.dir in dirs
  {
    !FAULTS ==>
      && err != -EIO
      && (err == 0 <==>
            && TopIsDir(br, dirs[k.dir], k, 0) && KnownAs(br, dirs, k, f, s) && EmptyListing(dirs[f], s)
            && !ReadOnly(br, dirs, Unlink(k)) && Space(br, dirs[f], k, cnt))
  }

  ghost predicate Space(br: seq<Branch>, di: DInfo, k: Key, cnt: Byte) {
    0 <= di.bstart < |br| && !br[di.bstart].Rdonly() ==> Roomy(br[di.bstart], k, cnt)
  }

  /** Copying a directory up keeps its dentry so: branch b, where nothing was known of the name, gets
      an entry. */
  lemma {:induction false} CopiedUp(br: seq<Branch>, p: DInfo, k: Key, di: DInfo, b: nat, e: Ent)
    requires DirOk(|br|, p) && DirInfo(br, p, k, di) && e.typ == DIR
    requires b < |br| && b <= di.DbTailDir() && p.On(b) && CellAt(br, p, k, b) == Skip
    ensures DirInfo(Put(br, b, k, e), p, k, WithDir(di, b))
  {
    var br', di' := Put(br, b, k, e), WithDir(di, b);
    GrowDirOk(|br|, di, b);
    forall j | 0 <= j < |br| ensures CellAt(br', p, k, j) == if j == b then Hit(e) else CellAt(br, p, k, j) {
      assert Wh(k) in br'[j].ents <==> Wh(k) in br[j].ents;
    }
    forall j | 0 <= j < |br| && di'.h[j] != Null ensures di'.h[j].Pos? && p.On(j) && CellAt(br', p, k, j).Hit? {
      GrowOn(|br|, di, b, j);
    }
  }

  /** rmdir(2). */
  method SysRmdir(u: U.Union, k: Key, f: Dir, g: Dir, s: seq<seq<string>>, later: bool, cnt0: Byte)
    returns (err: int, cnt: Byte)
    requires u.AtRest() && AllWhable(u.br) && Plain(k) && k.dir in u.dirs
    requires TopIsDir(u.br, u.dirs[k.dir], k, 0) ==> KnownAs(u.br, u.dirs, k, f, s)
    requires Unused(u.br, u.dirs, g)
    modifies u
    ensures Rmdirs(old(u.br), old(u.dirs), k, f, err, err != -EIO, u.br, u.dirs)
    // an rmdir that has a temporary name keeps the union whole like any other call
    ensures old(u.failed) <= u.failed
    ensures f in old(u.dirs) && Space(old(u.br), old(u.dirs)[f], k, cnt0) ==>
              Rmdirs(old(u.br), old(u.dirs), k, f, err, Whole(err, old(u.failed), u.failed), u.br, u.dirs)
    ensures Decided(old(u.br), old(u.dirs), k, f, s, cnt0, err)
  {
    hide View, Vis, FreshInfo, EmptyListing, ReadsAll, Stays, MayRmdir, ReadOnly, Space, Unused;
    hide Stack.NoOrphans, Stack.MarksOk, Stack.NeverBoth;
    cnt := cnt0;
    var d;
    err, d := Find(u, k);
    if err < 0 {
      return;
    }
    if err == 0 {
      return -ENOENT, cnt;
    }
    if !u.br[d.di.bstart].ents[k].typ.DIR? {
      return -ENOTDIR, cnt;
    }
    // the dentry that is cached
    d.di := u.dirs[f];
    err, cnt := RmdirFound(u, d, f, g, s, later, cnt);
  }

  /** Nothing is known of directory g. */
  ghost predicate Unused(br: seq<Branch>, dirs: Dirs, g: Dir) {
    g !in dirs && forall b, x :: 0 <= b < |br| && x in br[b].ents ==> x.dir != g
  }

  /** rmdir(2) of a directory that is there. */
  method RmdirFound(u: U.Union, d: Dentry, f: Dir, g: Dir, s: seq<seq<string>>, later: bool, cnt0: Byte)
    returns (err: int, cnt: Byte)
    requires u.AtRest() && AllWhable(u.br) && u.FreshDir(d) && KnownAs(u.br, u.dirs, d.key, f, s) && d.di == u.dirs[f]
    requires Unused(u.br, u.dirs, g)
    modifies u, d
    ensures Rmdirs(old(u.br), old(u.dirs), d.key, f, err, err != -EIO, u.br, u.dirs) && old(u.failed) <= u.failed
    ensures Space(old(u.br), old(u.dirs)[f], d.key, cnt0) ==>
              Rmdirs(old(u.br), old(u.dirs), d.key, f, err, Whole(err, old(u.failed), u.failed), u.br, u.dirs)
    ensures Decided(old(u.br), old(u.dirs), d.key, f, s, cnt0, err)
  {
    hide View, Vis, Left, FreshInfo, EmptyListing, ReadsAll, Judged, Stays, MayRmdir, ReadOnly, U.Target, Roomy, AllWhable;
    hide Stack.NoOrphans, Stack.MarksOk, Stack.NeverBoth;
    ghost var br0, dirs0, k, di := u.br, u.dirs, d.key, d.di;
    ghost var t := U.Target(br0, dirs0[k.dir], di.bstart);
    AsDir(br0, dirs0[k.dir], k, di);
    Chosen(br0, dirs0, k, f, s, di);
    err, cnt := AufsRmdir(u, d, f, g, s, later, cnt0);
    if t >= 0 {
      GrownKeeps(br0, dirs0, u.dirs, k.dir, t);
      OnlyAtRespects(br0, u.br, t);
    }
    if err == 0 {
      Gone(br0, dirs0, k, f, g, di, t, s, u.br);
      // the dentry is dropped
      u.dirs := u.dirs - {f};
    }
  }

  lemma {:induction false} Chosen(br: seq<Branch>, dirs: Dirs, k: Key, f: Dir, s: seq<seq<string>>, di: DInfo)
    requires AtRest(br, dirs) && Plain(k) && k.dir in dirs && KnownAs(br, dirs, k, f, s) && di == dirs[f]
    ensures Apart(di, s) && TopIsDir(br, dirs[k.dir], k, 0)
    ensures var t := U.Target(br, dirs[k.dir], di.bstart);
            && t <= di.bstart && (t >= 0 ==> !br[t].Rdonly()) && (t == di.bstart <==> !br[di.bstart].Rdonly())
            && (ReadOnly(br, dirs, Unlink(k)) <==> t < 0)
  {
    hide ReadOnly, Apart, U.Target;
    AtRestApart(br, dirs, f, s);
    Listing.TopmostIsVis(br, dirs[k.dir], k, di.bstart);
    U.TargetFacts(br, dirs[k.dir], di.bstart);
    DirPlace(br, dirs, k, di);
  }

  lemma {:induction false} DirPlace(br: seq<Branch>, dirs: Dirs, k: Key, di: DInfo)
    requires AtRest(br, dirs) && Plain(k) && k.dir in dirs && DirInfo(br, dirs[k.dir], k, di)
    ensures ReadOnly(br, dirs, Unlink(k)) <==> U.Target(br, dirs[k.dir], di.bstart) < 0
  {
    var p := dirs[k.dir];
    VisSkip(br, p, k, 0, di.bstart);
    forall b: nat | Topmost(br, p, k, b) ensures b == di.bstart {
      assert CellAt(br, p, k, b).Hit? && CellAt(br, p, k, di.bstart).Hit?;
    }
    assert Place(br, p, k, di.bstart);
    U.TargetFacts(br, p, di.bstart);
  }

  /** What success means for the view. */
  lemma {:induction false} Gone(br: seq<Branch>, dirs: Dirs, k: Key, f: Dir, g: Dir, di: DInfo, t: nat, s: seq<seq<string>>,
                                br': seq<Branch>)
    requires AtRest(br, dirs) && AllWhable(br) && Plain(k) && k.dir in dirs && KnownAs(br, dirs, k, f, s) && g !in dirs
    requires DirInfo(br, dirs[k.dir], k, di) && dirs[f] == di && EmptyListing(di, s)
    requires t <= di.bstart && !br[t].Rdonly() && (t == di.bstart <==> !br[di.bstart].Rdonly())
    requires Left(br, br', k, f, g, di.bstart, t, Judged(br, dirs[k.dir], k, di, t, true))
    ensures var dirs' := dirs[k.dir := WithDir(dirs[k.dir], t)] - {f};
            && AtRest(br', dirs') && MayRmdir(View(br, dirs), k, f)
            && (View(br', dirs') == View(br, dirs) - {k} <==> !Stays(br, dirs[k.dir], k, di))
  {
    hide View, Left, FreshInfo, EmptyListing, ReadsAll, Missed, Stack.NoOrphans, Stack.MarksOk, Stack.NeverBoth;
    RmdirOutcome(br, dirs, k, f, g, di, t, s, br');
    Emptied(br, dirs, k, f, di, s);
    assert br[t].Whable();
  }

  lemma {:induction false} Emptied(br: seq<Branch>, dirs: Dirs, k: Key, f: Dir, di: DInfo, s: seq<seq<string>>)
    requires AtRest(br, dirs) && Plain(k) && k.dir in dirs && KnownAs(br, dirs, k, f, s)
    requires DirInfo(br, dirs[k.dir], k, di) && dirs[f] == di && EmptyListing(di, s)
    ensures MayRmdir(View(br, dirs), k, f)
  {
    hide EmptyListing, ReadsAll, Vis, FreshInfo;
    Listing.TopmostIsVis(br, dirs[k.dir], k, di.bstart);
    InView(br, dirs, k);
    forall x | x in View(br, dirs) ensures x.dir != f {
      if x.dir == f {
        assert Plain(x) && x == Key(f, x.name);
        EmptyNames(br, dirs, f, s, x.name);
      }
    }
  }

  // the directory a of directory 0, on the first and third of four branches, the last of which has
  // its whiteout
  const A: Key := Key(0, "a")

  const LOWER: Ent := Ent(DIR, 1, false)

  const PARENT: DInfo := DInfo(0, 3, -1, -1, seq(4, _ => Pos(LOWER)))

  const BRANCHES: seq<Branch> := [
    Branch(RW, false, map[A := LOWER]), Branch(RO, false, map[]),
    Branch(RO, false, map[A := LOWER]), Branch(ROWH, false, map[Wh(A) := U.MARK])
  ]

  lemma {:induction false} ExampleCells()
    ensures DirOk(4, PARENT) && Plain(A) && A.dir != 1
    ensures forall j :: 0 <= j < 4 ==> PARENT.On(j)
    ensures CellAt(BRANCHES, PARENT, A, 0) == Hit(LOWER) && CellAt(BRANCHES, PARENT, A, 1) == Skip
    ensures CellAt(BRANCHES, PARENT, A, 2) == Hit(LOWER) && CellAt(BRANCHES, PARENT, A, 3) == Stop
  {
    assert forall j :: 0 <= j < 4 ==> PARENT.On(j);
    assert Wh(A).name[0] == '.';
  }

  lemma {:induction false} ExampleFresh() returns (dirs: Dirs)
    ensures DirOk(4, PARENT) && dirs == map[0 := PARENT, 1 := FreshInfo(BRANCHES, PARENT, A)]
    ensures AtRest(BRANCHES, dirs) && TopIsDir(BRANCHES, PARENT, A, 0)
    ensures DirInfo(BRANCHES, PARENT, A, dirs[1]) && dirs[1].bstart == 0 && dirs[1].bwh == 3 && dirs[1].h[1] == Null
  {
    hide FreshInfo;
    ExampleCells();
    ExampleStays();
    FreshIsDir(BRANCHES, PARENT, A);
    FreshPositive(BRANCHES, PARENT, A);
    FreshDirOk(BRANCHES, PARENT, A);
    dirs := map[0 := PARENT, 1 := FreshInfo(BRANCHES, PARENT, A)];
    assert Wh(A).name[0] == '.';
    forall b | 0 <= b < 4 ensures NeverBoth(BRANCHES[b]) && MarksOk(BRANCHES[b]) && NoOrphans(BRANCHES[b], dirs, b) {
      forall x: Key | Wh(x) == Wh(A) ensures x == A {
        assert Stripped(Wh(x).name) == x.name;
      }
    }
  }

  lemma {:induction false} ExampleStays()
    ensures DirOk(4, PARENT) && WhStop(BRANCHES, PARENT, A, 0, None) == 3 && 1 !in Merged(BRANCHES, PARENT, A)
    ensures NextOn(PARENT, 1) == 1 && Vis(BRANCHES, PARENT, A, 1) == Some(LOWER)
  {
    ExampleCells();
    MergeIff(BRANCHES, PARENT, A, 0, 1);
    assert WhStop(BRANCHES, PARENT, A, 3, Some(DIR)) == 3;
    assert WhStop(BRANCHES, PARENT, A, 2, Some(DIR)) == 3;
    assert WhStop(BRANCHES, PARENT, A, 1, Some(DIR)) == 3;
    assert Vis(BRANCHES, PARENT, A, 2) == Some(LOWER);
  }

  lemma {:induction false} LeftItself(br: seq<Branch>, k: Key, f: Dir, g: Dir, b0: nat, t: nat, made: bool)
    requires b0 < |br| && t < |br| && k.dir != g && forall x :: x in br[t].ents ==> x.dir != g
    ensures Left(br, Removed(br, k, f, b0, t, made), k, f, g, b0, t, made)
  {
  }

  lemma {:induction false} ExampleEmpty(dirs: Dirs) returns (s: seq<seq<string>>)
    requires 0 in dirs && 1 in dirs && dirs[0] == PARENT && DirsOk(4, dirs) && DirOk(4, PARENT)
    requires DirInfo(BRANCHES, PARENT, A, dirs[1])
    ensures KnownAs(BRANCHES, dirs, A, 1, s) && EmptyListing(dirs[1], s)
  {
    hide FreshInfo;
    s := seq(4, _ => [".", ".."]);
    forall b | 0 <= b < 4 ensures Reads(BRANCHES[b], 1, s[b]) {
      forall n: string ensures Key(1, n) !in BRANCHES[b].ents {
        assert Key(1, n).dir != Wh(A).dir;
      }
    }
  }

  /** An empty directory that rmdir removes with success, and that is still there: the whiteout on
      the last branch keeps the second lookup from seeing the third. */
  lemma {:induction false} Outlives() returns (dirs: Dirs, s: seq<seq<string>>)
    ensures AtRest(BRANCHES, dirs) && AllWhable(BRANCHES) && 0 in dirs && 1 in dirs && dirs[0] == PARENT
    ensures KnownAs(BRANCHES, dirs, A, 1, s) && EmptyListing(dirs[1], s) && dirs[1].bstart == 0
    ensures var br' := Removed(BRANCHES, A, 1, 0, 0, Judged(BRANCHES, PARENT, A, dirs[1], 0, true));
            && AtRest(br', map[0 := PARENT])
            && View(br', map[0 := PARENT]) != View(BRANCHES, dirs) - {A}
  {
    hide View, Vis, Left, Removed, FreshInfo, EmptyListing, ReadsAll, Stack.NoOrphans, Stack.MarksOk, Stack.NeverBoth;
    dirs := ExampleFresh();
    ExampleCells();
    ExampleStays();
    s := ExampleEmpty(dirs);
    var made := Judged(BRANCHES, PARENT, A, dirs[1], 0, true);
    var br' := Removed(BRANCHES, A, 1, 0, 0, made);
    LeftItself(BRANCHES, A, 1, 2, 0, 0, made);
    RmdirOutcome(BRANCHES, dirs, A, 1, 2, dirs[1], 0, s, br');
    assert dirs[0 := WithDir(PARENT, 0)] - {1} == map[0 := PARENT];
  }

  // the directory a on one branch; in it, under a temporary name, a directory removed earlier whose
  // emptying was left to the work queue
  const TRASH: Key := Tmp(Key(1, "b"), 1)

  const TOP: DInfo := DInfo(0, 0, -1, -1, [Pos(LOWER)])

  const TRASHED: seq<Branch> := [Branch(RW, false, map[A := LOWER, TRASH := Ent(DIR, 3, false)])]

  lemma {:induction false} TrashName()
    ensures TRASH.dir == 1 && TRASH.name == ".wh..wh.b.0001" && Mark(TRASH.name) && !Plain(TRASH)
    ensures forall x :: Plain(x) ==> Wh(x) != TRASH
  {
    DoublyApart(TRASH);
    assert TRASH.name == ".wh..wh.b.0001";
  }

  lemma {:induction false} TrashFresh() returns (dirs: Dirs)
    ensures DirOk(1, TOP) && dirs == map[0 := TOP, 1 := FreshInfo(TRASHED, TOP, A)]
    ensures AtRest(TRASHED, dirs) && TopIsDir(TRASHED, TOP, A, 0) && dirs[1].On(0)
    ensures U.Target(TRASHED, TOP, 0) == 0 && dirs[1].bstart == 0
  {
    hide Tmp;
    TrashName();
    assert TOP.On(0) && DirOk(1, TOP);
    assert forall x: Key :: Wh(x) != A by {
      assert forall x: Key :: Wh(x).name[0] == '.';
    }
    assert CellAt(TRASHED, TOP, A, 0) == Hit(LOWER);
    FreshIsDir(TRASHED, TOP, A);
    FreshDirOk(TRASHED, TOP, A);
    dirs := map[0 := TOP, 1 := FreshInfo(TRASHED, TOP, A)];
  }

  /** An empty directory at rest whose lower directory holds a directory under a whiteout name: its
      removal succeeds, and by the contract of AufsRmdir leaves something behind. */
  lemma {:induction false} LeftBehind() returns (dirs: Dirs, s: seq<seq<string>>)
    ensures AtRest(TRASHED, dirs) && 0 in dirs && 1 in dirs && dirs[0] == TOP && DirInfo(TRASHED, TOP, A, dirs[1])
    ensures KnownAs(TRASHED, dirs, A, 1, s) && EmptyListing(dirs[1], s) && U.Target(TRASHED, TOP, dirs[1].bstart) == 0
    ensures Roomy(TRASHED[0], A, 0) && !NoDirs(TRASHED[0].ents, 1)
  {
    hide FreshInfo, Vis;
    TrashName();
    dirs := TrashFresh();
    FreshIsDir(TRASHED, TOP, A);
    s := [[".", "..", ".wh..wh.b.0001"]];
    assert TRASH == Key(1, ".wh..wh.b.0001");
    assert Reads(TRASHED[0], 1, s[0]);
    assert |Tmp(A, 0).name| == 14 && Tmp(A, After(0, 0)) !in TRASHED[0].ents;
  }
}
