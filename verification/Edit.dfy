/** How single edits of one branch, or of a directory's own record, change the merged view. */
module Edit {
  import opened Names
  import opened Stack

  function Put(br: seq<Branch>, b: nat, k: Key, e: Ent): seq<Branch>
    requires b < |br|
  {
    br[b := br[b].(ents := br[b].ents[k := e])]
  }

  function Del(br: seq<Branch>, b: nat, k: Key): seq<Branch>
    requires b < |br|
  {
    br[b := br[b].(ents := br[b].ents - {k})]
  }

  /** The directory's record once branch b holds a lower directory for it too. */
  function WithDir(p: DInfo, b: nat): DInfo
    requires b < |p.h|
  {
    if p.H(b) != Null then p
    else p.(bstart := if b < p.bstart then b else p.bstart, h := p.h[b := Pos(Ent(DIR, 0, false))])
  }

  /** At most, branch b has been given a lower directory for d. */
  ghost predicate Grown(dirs: Dirs, dirs': Dirs, d: Dir, b: nat) {
    dirs' == dirs || (d in dirs && b < |dirs[d].h| && dirs' == dirs[d := WithDir(dirs[d], b)])
  }

  /** Only branch t differs, and only in its entries. */
  ghost predicate OnlyAt(br: seq<Branch>, br': seq<Branch>, t: nat) {
    && |br| == |br'| && t < |br|
    && (forall j :: 0 <= j < |br| && j != t ==> br'[j] == br[j])
    && br'[t] == br[t].(ents := br'[t].ents)
  }

  /** Two branches agree on k and on its whiteout. */
  ghost predicate Agree(x: Branch, y: Branch, k: Key) {
    && (k in x.ents <==> k in y.ents) && (k in x.ents ==> x.ents[k] == y.ents[k])
    && (Wh(k) in x.ents <==> Wh(k) in y.ents)
  }

  lemma {:induction false} OtherName(br: seq<Branch>, br': seq<Branch>, t: nat, p: DInfo, k: Key)
    requires |p.h| == |br| && OnlyAt(br, br', t) && Agree(br[t], br'[t], k)
    ensures Vis(br', p, k, 0) == Vis(br, p, k, 0)
  {
    forall j | 0 <= j < |br| ensures CellAt(br, p, k, j) == CellAt(br', p, k, j) {
      assert j != t ==> br'[j] == br[j];
      assert br'[j].Whable() == br[j].Whable();
    }
    VisSame(br, p, br', p, k, 0);
  }

  /** A name about which the branches above t are silent is decided from t on. */
  lemma {:induction false} DecidedAt(br: seq<Branch>, br': seq<Branch>, t: nat, p: DInfo, k: Key)
    requires |p.h| == |br| && OnlyAt(br, br', t) && Clear(br, p, k, 0, t)
    ensures Vis(br', p, k, 0) == Vis(br', p, k, t)
    ensures Vis(br', p, k, t + 1) == Vis(br, p, k, t + 1)
  {
    assert Clear(br', p, k, 0, t) by {
      forall j | 0 <= j < t ensures CellAt(br', p, k, j) == Skip {
        assert CellAt(br, p, k, j) == Skip;
      }
    }
    VisSkip(br', p, k, 0, t);
    VisSame(br, p, br', p, k, t + 1);
  }

  /** A lower directory that appears where none was holds nothing, so nothing changes. */
  lemma {:induction false} GrowCell(br: seq<Branch>, dirs: Dirs, d: Dir, b: nat, k: Key, j: nat)
    requires AtRest(br, dirs) && d in dirs && b < |br| && b <= dirs[d].DbTailDir()
    requires k.dir == d && j < |br|
    ensures |WithDir(dirs[d], b).h| == |br|
    ensures CellAt(br, WithDir(dirs[d], b), k, j) == CellAt(br, dirs[d], k, j)
  {
    var p, p' := dirs[d], WithDir(dirs[d], b);
    assert NoOrphans(br[b], dirs, b);
    assert p'.DbTailDir() == p.DbTailDir();
    if p.H(b) == Null {
      assert !p.On(b);
      assert Wh(k).dir == d && Wh(k) !in br[b].ents && k !in br[b].ents;
      if j != b {
        GrowOn(|br|, p, b, j);
      }
    }
  }

  lemma {:induction false} GrowOn(n: nat, p: DInfo, b: nat, j: nat)
    requires DirOk(n, p) && b < n && b <= p.DbTailDir() && j < n
    ensures |WithDir(p, b).h| == n && WithDir(p, b).DbTailDir() == p.DbTailDir()
    ensures WithDir(p, b).H(j) == if j == b && p.H(b) == Null then Pos(Ent(DIR, 0, false)) else p.H(j)
  {
    var p' := WithDir(p, b);
    if p.H(b) == Null && j != b && p'.bstart <= j < p.bstart {
      assert p.H(j) == Null;
    }
  }

  lemma {:induction false} GrowDirOk(n: nat, p: DInfo, b: nat)
    requires DirOk(n, p) && b < n && b <= p.DbTailDir()
    ensures DirOk(n, WithDir(p, b))
    ensures forall j :: 0 <= j < n ==> (WithDir(p, b).On(j) <==> j == b || p.On(j))
  {
    forall j | 0 <= j < n
      ensures WithDir(p, b).On(j) <==> j == b || p.On(j)
      ensures WithDir(p, b).h[j] != Null <==> WithDir(p, b).On(j)
    {
      GrowOn(n, p, b, j);
    }
  }

  /** Copying a parent directory up to a branch keeps the namespace at rest and the view as it was.
      The entry it gets in its own parent there, for an object that is visible under that name
      already, is not recorded. */
  lemma {:induction false} GrowKeeps(br: seq<Branch>, dirs: Dirs, d: Dir, b: nat)
    requires AtRest(br, dirs) && d in dirs && b < |br| && b <= dirs[d].DbTailDir()
    ensures AtRest(br, dirs[d := WithDir(dirs[d], b)])
    ensures View(br, dirs[d := WithDir(dirs[d], b)]) == View(br, dirs)
  {
    var dirs' := dirs[d := WithDir(dirs[d], b)];
    GrowDirOk(|br|, dirs[d], b);
    forall c | 0 <= c < |br| ensures NoOrphans(br[c], dirs', c) {
      assert NoOrphans(br[c], dirs, c);
      GrowOn(|br|, dirs[d], b, c);
    }
    forall k ensures Denotes(br, dirs', k) == Look(View(br, dirs), k) {
      if k.dir == d {
        GrowVis(br, dirs, d, b, k);
      }
      assert Denotes(br, dirs', k) == Denotes(br, dirs, k);
    }
    ViewEq(br, dirs', View(br, dirs));
  }

  lemma {:induction false} GrowVis(br: seq<Branch>, dirs: Dirs, d: Dir, b: nat, k: Key)
    requires AtRest(br, dirs) && d in dirs && b < |br| && b <= dirs[d].DbTailDir() && k.dir == d
    ensures |WithDir(dirs[d], b).h| == |br|
    ensures Vis(br, WithDir(dirs[d], b), k, 0) == Vis(br, dirs[d], k, 0)
  {
    forall j | 0 <= j < |br| ensures CellAt(br, dirs[d], k, j) == CellAt(br, WithDir(dirs[d], b), k, j) {
      GrowCell(br, dirs, d, b, k, j);
    }
    VisSame(br, dirs[d], br, WithDir(dirs[d], b), k, 0);
  }

  /** Every plain name outside ks denotes what it denoted. */
  ghost predicate SameExcept(br: seq<Branch>, br': seq<Branch>, dirs: Dirs, ks: set<Key>)
    requires DirsOk(|br|, dirs) && |br'| == |br|
  {
    forall k: Key :: Plain(k) && k.dir in dirs && k !in ks ==>
                       Vis(br', dirs[k.dir], k, 0) == Vis(br, dirs[k.dir], k, 0)
  }

  /** Editing only names in ks and their whiteouts on one branch leaves the others alone. */
  lemma {:induction false} EditSame(br: seq<Branch>, br': seq<Branch>, t: nat, dirs: Dirs, ks: set<Key>)
    requires DirsOk(|br|, dirs) && OnlyAt(br, br', t)
    requires forall k: Key :: Plain(k) && k !in ks ==> Agree(br[t], br'[t], k)
    ensures SameExcept(br, br', dirs, ks)
  {
    forall k: Key | Plain(k) && k.dir in dirs && k !in ks
      ensures Vis(br', dirs[k.dir], k, 0) == Vis(br, dirs[k.dir], k, 0)
    {
      OtherName(br, br', t, dirs[k.dir], k);
    }
  }

  /** The flat namespace's own reading of a name. */
  ghost function Look(v: imap<Key, Obj>, k: Key): Option<Obj> {
    if k in v then Some(v[k]) else None
  }

  lemma {:induction false} ViewEq(br: seq<Branch>, dirs: Dirs, v: imap<Key, Obj>)
    requires DirsOk(|br|, dirs)
    requires forall k :: Denotes(br, dirs, k) == Look(v, k)
    ensures View(br, dirs) == v
  {
    forall k ensures (k in View(br, dirs) <==> k in v) && (k in v ==> View(br, dirs)[k] == v[k]) {
      assert Denotes(br, dirs, k) == Look(v, k);
    }
  }

  lemma {:induction false} SameDenotes(br: seq<Branch>, br': seq<Branch>, dirs: Dirs, ks: set<Key>, k: Key)
    requires DirsOk(|br|, dirs) && |br'| == |br| && SameExcept(br, br', dirs, ks) && k !in ks
    ensures Denotes(br', dirs, k) == Look(View(br, dirs), k)
  {
    assert Denotes(br', dirs, k) == Denotes(br, dirs, k);
  }

  lemma {:induction false} ViewRemoved(br: seq<Branch>, br': seq<Branch>, dirs: Dirs, k: Key)
    requires DirsOk(|br|, dirs) && |br'| == |br| && Plain(k) && k.dir in dirs
    requires SameExcept(br, br', dirs, {k}) && Vis(br', dirs[k.dir], k, 0) == None
    ensures View(br', dirs) == View(br, dirs) - {k}
  {
    forall x ensures Denotes(br', dirs, x) == Look(View(br, dirs) - {k}, x) {
      if x != k {
        SameDenotes(br, br', dirs, {k}, x);
      }
    }
    ViewEq(br', dirs, View(br, dirs) - {k});
  }

  lemma {:induction false} ViewNotRemoved(br: seq<Branch>, dirs: Dirs, k: Key)
    requires DirsOk(|br|, dirs) && Plain(k) && k.dir in dirs
    requires Vis(br, dirs[k.dir], k, 0) != None
    ensures k in View(br, dirs)
  {
    assert Denotes(br, dirs, k).Some?;
  }

  lemma {:induction false} ViewBound(br: seq<Branch>, br': seq<Branch>, dirs: Dirs, k: Key, e: Ent)
    requires DirsOk(|br|, dirs) && |br'| == |br| && Plain(k) && k.dir in dirs
    requires SameExcept(br, br', dirs, {k}) && Vis(br', dirs[k.dir], k, 0) == Some(e)
    ensures View(br', dirs) == View(br, dirs)[k := ObjOf(e)]
  {
    forall x ensures Denotes(br', dirs, x) == Look(View(br, dirs)[k := ObjOf(e)], x) {
      if x != k {
        SameDenotes(br, br', dirs, {k}, x);
      }
    }
    ViewEq(br', dirs, View(br, dirs)[k := ObjOf(e)]);
  }

  lemma {:induction false} ViewKept(br: seq<Branch>, br': seq<Branch>, dirs: Dirs)
    requires DirsOk(|br|, dirs) && |br'| == |br|
    requires SameExcept(br, br', dirs, {})
    ensures View(br', dirs) == View(br, dirs)
  {
    forall x ensures Denotes(br', dirs, x) == Look(View(br, dirs), x) {
      SameDenotes(br, br', dirs, {}, x);
    }
    ViewEq(br', dirs, View(br, dirs));
  }

  lemma {:induction false} ViewMoved(br: seq<Branch>, br': seq<Branch>, dirs: Dirs, src: Key, dst: Key, e: Ent)
    requires DirsOk(|br|, dirs) && |br'| == |br| && src != dst
    requires Plain(src) && src.dir in dirs && Plain(dst) && dst.dir in dirs
    requires SameExcept(br, br', dirs, {src, dst})
    requires Vis(br', dirs[src.dir], src, 0) == None && Vis(br', dirs[dst.dir], dst, 0) == Some(e)
    ensures View(br', dirs) == (View(br, dirs) - {src})[dst := ObjOf(e)]
  {
    var v' := (View(br, dirs) - {src})[dst := ObjOf(e)];
    forall x ensures Denotes(br', dirs, x) == Look(v', x) {
      if x != src && x != dst {
        SameDenotes(br, br', dirs, {src, dst}, x);
      }
    }
    ViewEq(br', dirs, v');
  }

  /** Creating an entry and removing it again changes nothing. */
  lemma {:induction false} PutDel(br: seq<Branch>, b: nat, k: Key, e: Ent)
    requires b < |br| && k !in br[b].ents
    ensures Del(Put(br, b, k, e), b, k) == br
  {
    assert br[b].ents[k := e] - {k} == br[b].ents;
  }

  lemma {:induction false} GrowClear(br: seq<Branch>, dirs: Dirs, d: Dir, b: nat, k: Key, t: nat)
    requires AtRest(br, dirs) && d in dirs && k.dir in dirs && b < |br| && b <= dirs[d].DbTailDir()
    requires t <= |br| && Clear(br, dirs[k.dir], k, 0, t)
    ensures var dirs' := dirs[d := WithDir(dirs[d], b)];
            |dirs'[k.dir].h| == |br| && Clear(br, dirs'[k.dir], k, 0, t)
  {
    var dirs' := dirs[d := WithDir(dirs[d], b)];
    if k.dir == d {
      GrowDirOk(|br|, dirs[d], b);
      forall j | 0 <= j < t ensures CellAt(br, dirs'[k.dir], k, j) == Skip {
        GrowCell(br, dirs, d, b, k, j);
        assert CellAt(br, dirs[k.dir], k, j) == Skip;
      }
    }
  }
}
