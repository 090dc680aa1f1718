/** System calls on the union, and whole runs of them, against a flat namespace. */
module Namespace {
  import opened Names
  import opened Stack
  import opened Lookup
  import opened Fresh
  import opened Edit
  import OpAdd
  import OpDel
  import OpRen
  import U = Union

  type Flat = imap<Key, Obj>

  /** A call. The file of a new directory is also the directory it is to be known as. */
  datatype Op =
    | Create(key: Key, typ: FType, file: nat)
    | Mkdir(key: Key, file: Dir)
    | Unlink(key: Key)
    | Rename(src: Key, dst: Key)
  {
    predicate Proper() {
      match this
      case Rename(s, d) => Plain(s) && Plain(d) && s != d
      case Create(k, t, _) => Plain(k) && t != DIR
      case _ => Plain(key)
    }

    /** The directories it names are there. */
    predicate In(ds: set<Dir>) {
      match this
      case Rename(s, d) => s.dir in ds && d.dir in ds
      case _ => key.dir in ds
    }

    predicate Names(dirs: Dirs) {
      Proper() && In(dirs.Keys)
    }

    /** The directory it makes. */
    function Makes(err: int): set<Dir> {
      if Mkdir? && err == 0 then {file} else {}
    }
  }

  /** The system call on a flat directory: what POSIX.1 says success means. */
  ghost function Step(v: Flat, op: Op): Flat {
    match op
    case Create(k, t, f) => v[k := Obj(t, f)]
    case Mkdir(k, f) => v[k := Obj(DIR, f)]
    case Unlink(k) => v - {k}
    case Rename(s, d) => if s in v && !NoAction(v, op) then (v - {s})[d := v[s]] else v
  }

  /** Two links to one file: rename() does nothing, and succeeds. */
  ghost predicate NoAction(v: Flat, op: Op) {
    op.Rename? && op.src in v && op.dst in v && v[op.src] == v[op.dst]
  }

  /** Is a call allowed to succeed on the flat directory? */
  ghost predicate May(v: Flat, op: Op) {
    match op
    case Create(k, _, _) => k !in v
    case Mkdir(k, _) => k !in v
    case Unlink(k) => k in v && v[k].typ != DIR
    case Rename(s, d) => s in v && v[s].typ != DIR && (d in v ==> v[d].typ != DIR)
  }

  /** Every branch that can be written can hold whiteouts: no branch is rw+nolwh. */
  ghost predicate AllWhable(br: seq<Branch>) {
    forall b :: 0 <= b < |br| && br[b].Writable() ==> br[b].Whable()
  }

  /** Permissions never change, and read-only branches not at all. */
  ghost predicate Respects(br: seq<Branch>, br': seq<Branch>) {
    && |br'| == |br|
    && forall b :: 0 <= b < |br| ==>
                     br'[b] == br[b].(ents := br'[b].ents) && (br[b].Rdonly() ==> br'[b] == br[b])
  }

  /** Directories stay, and names only come into directories that are there. */
  ghost predicate Evolves(br: seq<Branch>, br': seq<Branch>, ds: set<Dir>) {
    && |br'| == |br|
    && (forall b, x :: 0 <= b < |br| && x in br'[b].ents && x !in br[b].ents ==> x.dir in ds)
    && (forall b, x :: 0 <= b < |br| && x in br[b].ents && br[b].ents[x].typ == DIR ==>
          x in br'[b].ents && br'[b].ents[x].typ == DIR)
  }

  /** An edit of the entries ks on branch t, no directory among them. */
  lemma {:induction false} EvolvesAt(br: seq<Branch>, br': seq<Branch>, t: nat, ds: set<Dir>, ks: set<Key>)
    requires OnlyAt(br, br', t)
    requires forall x :: x !in ks ==> (x in br'[t].ents <==> x in br[t].ents)
    requires forall x :: x !in ks && x in br[t].ents ==> br'[t].ents[x] == br[t].ents[x]
    requires forall x :: x in ks ==> x.dir in ds && (x in br[t].ents ==> br[t].ents[x].typ != DIR)
    ensures Evolves(br, br', ds)
  {
    forall b | 0 <= b < |br| && b != t ensures br'[b] == br[b] {
    }
  }

  /** Branch b is where k is, or where it would be created. */
  ghost predicate Place(br: seq<Branch>, p: DInfo, k: Key, b: nat)
    requires |br| == |p.h|
  {
    if Vis(br, p, k, 0) == None then b == p.bstart else Topmost(br, p, k, b)
  }

  /** No branch from the top down to the names' own can be written. */
  ghost predicate ReadOnly(br: seq<Branch>, dirs: Dirs, op: Op)
    requires DirsOk(|br|, dirs) && op.Names(dirs)
  {
    match op
    case Rename(s, d) =>
      forall b: nat, c: nat, j :: Place(br, dirs[s.dir], s, b) && Place(br, dirs[d.dir], d, c) && 0 <= j <= b && j <= c && j < |br| ==>
                                    br[j].Rdonly()
    case _ =>
      forall b: nat, j :: Place(br, dirs[op.key.dir], op.key, b) && 0 <= j <= b && j < |br| ==> br[j].Rdonly()
  }

  /** When lower calls do not fail: the call succeeds exactly when the flat directory allows it
      and there is nothing to do, or a branch to write. */
  ghost predicate Decides(br: seq<Branch>, dirs: Dirs, op: Op, err: int)
    requires AtRest(br, dirs) && op.Proper()
  {
    !FAULTS ==>
      && err != -EIO
      && (err == 0 <==>
            && op.In(dirs.Keys) && May(View(br, dirs), op)
            && (NoAction(View(br, dirs), op) || !ReadOnly(br, dirs, op)))
  }

  /** A dentry freshly looked up sits at its name's place. */
  lemma {:induction false} PlaceIs(br: seq<Branch>, dirs: Dirs, k: Key, di: DInfo)
    requires AtRest(br, dirs) && k.dir in dirs
    requires NegInfo(br, dirs[k.dir], k, di) || FileInfo(br, dirs[k.dir], k, di)
    ensures 0 <= di.bstart < |br| && forall b: nat :: Place(br, dirs[k.dir], k, b) <==> b == di.bstart
  {
    var p := dirs[k.dir];
    if FileInfo(br, p, k, di) {
      VisSkip(br, p, k, 0, di.bstart);
      forall b: nat | Topmost(br, p, k, b) ensures b == di.bstart {
        assert CellAt(br, p, k, b).Hit? && CellAt(br, p, k, di.bstart).Hit?;
      }
    }
  }

  /** So the choice of a branch fails exactly when the namespace is read-only for the call. */
  lemma {:induction false} ReadOnlyOne(br: seq<Branch>, dirs: Dirs, op: Op, di: DInfo)
    requires AtRest(br, dirs) && op.Names(dirs) && !op.Rename?
    requires NegInfo(br, dirs[op.key.dir], op.key, di) || FileInfo(br, dirs[op.key.dir], op.key, di)
    ensures 0 <= di.bstart < |br| == |dirs[op.key.dir].h| && dirs[op.key.dir].bstart >= 0
    ensures ReadOnly(br, dirs, op) <==> U.Target(br, dirs[op.key.dir], di.bstart) < 0
  {
    hide NegInfo, FileInfo, Place, U.Target, Stack.NeverBoth, Stack.MarksOk, Stack.NoOrphans;
    PlaceIs(br, dirs, op.key, di);
    assert DirOk(|br|, dirs[op.key.dir]);
    U.TargetFacts(br, dirs[op.key.dir], di.bstart);
    assert Place(br, dirs[op.key.dir], op.key, di.bstart);
  }

  lemma {:induction false} ReadOnlyTwo(br: seq<Branch>, dirs: Dirs, s: Key, d: Key, si: DInfo, ti: DInfo)
    requires AtRest(br, dirs) && Rename(s, d).Names(dirs)
    requires FileInfo(br, dirs[s.dir], s, si) && (NegInfo(br, dirs[d.dir], d, ti) || FileInfo(br, dirs[d.dir], d, ti))
    ensures 0 <= si.bstart < |br| && 0 <= ti.bstart < |br| == |dirs[d.dir].h| && dirs[d.dir].bstart >= 0
    ensures ReadOnly(br, dirs, Rename(s, d)) <==> OpRen.RenTarget(br, dirs[d.dir], ti.bstart, si.bstart) < 0
  {
    hide NegInfo, FileInfo, Place, U.Target, Stack.NeverBoth, Stack.MarksOk, Stack.NoOrphans;
    PlaceIs(br, dirs, s, si);
    PlaceIs(br, dirs, d, ti);
    assert DirOk(|br|, dirs[d.dir]);
    U.TargetFacts(br, dirs[d.dir], OpAdd.Wanted(ti.bstart, si.bstart));
    assert Place(br, dirs[s.dir], s, si.bstart) && Place(br, dirs[d.dir], d, ti.bstart);
  }

  /** Looks k up afresh. */
  method Find(u: U.Union, k: Key) returns (err: int, d: Dentry)
    requires u.AtRest() && Plain(k) && k.dir in u.dirs
    ensures fresh(d) && d.key == k
    ensures !FAULTS ==> err >= 0
    ensures err >= 0 ==> (err == 0 <==> Vis(u.br, u.dirs[k.dir], k, 0) == None)
    ensures err == 0 ==> u.FreshNeg(d)
    ensures err > 0 && Vis(u.br, u.dirs[k.dir], k, 0).value.typ != DIR ==> u.FreshFile(d)
    ensures err > 0 && Vis(u.br, u.dirs[k.dir], k, 0).value.typ == DIR ==> u.FreshDir(d)
    ensures err > 0 ==> 0 <= d.di.bstart < |u.br| && k in u.br[d.di.bstart].ents
                        && Vis(u.br, u.dirs[k.dir], k, 0) == Some(u.br[d.di.bstart].ents[k])
  {
    var p := u.dirs[k.dir];
    d := new Dentry(k, |u.br|);
    AllWhOk(u.br, u.dirs, k);
    err := LkupDentry(u.br, p, d, p.bstart, None);
    if err >= 0 {
      FoundFacts(u.br, p, k);
    }
  }

  lemma {:induction false} FoundFacts(br: seq<Branch>, p: DInfo, k: Key)
    requires DirOk(|br|, p) && NeverBoth(br[p.bstart]) && Plain(k)
    ensures var r, v := Looked(br, p, k, p.bstart, None, Blank(|br|)), Vis(br, p, k, 0);
            && (r.0 == 0 <==> v == None)
            && (v == None ==> NegInfo(br, p, k, r.1))
            && (v.Some? ==> 0 <= r.1.bstart < |br| && k in br[r.1.bstart].ents && v == Some(br[r.1.bstart].ents[k]))
            && (v.Some? ==> if v.value.typ == DIR then DirInfo(br, p, k, r.1) else FileInfo(br, p, k, r.1))
  {
    AboveBstart(br, p, k);
    MergeVis(br, p, k, p.bstart);
    ScanCount(br, p, k, p.bstart, true, None, Blank(|br|));
    if Vis(br, p, k, 0) == None {
      FreshNegative(br, p, k);
    } else {
      FreshPositive(br, p, k);
      if Vis(br, p, k, 0).value.typ == DIR {
        FreshIsDir(br, p, k);
      } else {
        FreshNondir(br, p, k);
      }
    }
  }

  /** A call keeps the union whole unless it returns EIO after more than one lower failure. */
  predicate Whole(err: int, before: nat, after: nat) {
    err != -EIO || after <= before + 1
  }

  /** What one call does to the union, in flat terms: success is the flat call, any error of a call
      that keeps it whole is no change, and read-only branches are never written. */
  ghost predicate Refines(br0: seq<Branch>, dirs0: Dirs, op: Op, err: int, kept: bool, br: seq<Branch>, dirs: Dirs)
    requires AtRest(br0, dirs0)
  {
    && Respects(br0, br) && dirs.Keys == dirs0.Keys + op.Makes(err)
    && (err == 0 ==> kept) && (kept ==> AtRest(br, dirs) && Evolves(br0, br, dirs0.Keys))
    && (err == 0 ==> op.In(dirs0.Keys) && May(View(br0, dirs0), op) && View(br, dirs) == Step(View(br0, dirs0), op))
    && (err != 0 && kept ==> View(br, dirs) == View(br0, dirs0))
  }

  lemma {:induction false} OnlyAtRespects(br: seq<Branch>, br': seq<Branch>, t: nat)
    requires OnlyAt(br, br', t) && !br[t].Rdonly()
    ensures Respects(br, br')
  {
  }

  lemma {:induction false} InView(br: seq<Branch>, dirs: Dirs, k: Key)
    requires DirsOk(|br|, dirs) && Plain(k) && k.dir in dirs
    ensures k in View(br, dirs) <==> Vis(br, dirs[k.dir], k, 0).Some?
    ensures k in View(br, dirs) ==> View(br, dirs)[k] == ObjOf(Vis(br, dirs[k.dir], k, 0).value)
  {
    assert Denotes(br, dirs, k).Some? <==> Vis(br, dirs[k.dir], k, 0).Some?;
  }

  lemma {:induction false} GrownKeeps(br: seq<Branch>, dirs: Dirs, dirs': Dirs, d: Dir, t: nat)
    requires AtRest(br, dirs) && d in dirs && t < |br| && t <= dirs[d].DbTailDir() && Grown(dirs, dirs', d, t)
    ensures AtRest(br, dirs') && View(br, dirs') == View(br, dirs) && dirs'.Keys == dirs.Keys
  {
    GrowKeeps(br, dirs, d, t);
  }

  /** A call that wrote at most branch t, which is writable, and left the view alone. */
  lemma {:induction false} NoChange(br: seq<Branch>, dirs: Dirs, op: Op, err: int, kept: bool, t: nat, br': seq<Branch>, dirs': Dirs)
    requires AtRest(br, dirs) && err != 0 && dirs'.Keys == dirs.Keys
    requires OnlyAt(br, br', t) && !br[t].Rdonly()
    requires kept ==> AtRest(br', dirs') && View(br', dirs') == View(br, dirs) && Evolves(br, br', dirs.Keys)
    ensures Refines(br, dirs, op, err, kept, br', dirs')
  {
    OnlyAtRespects(br, br', t);
  }

  lemma {:induction false} UnlinkRefines(br: seq<Branch>, dirs: Dirs, k: Key, di: DInfo, t: nat)
    requires AtRest(br, dirs) && AllWhable(br) && Plain(k) && k.dir in dirs && FileInfo(br, dirs[k.dir], k, di)
    requires t <= di.bstart && !br[t].Rdonly()
    ensures t < |br| == |dirs[k.dir].h|
    ensures Refines(br, dirs, Unlink(k), 0, true,
                    OpDel.Unlinked(br, k, di.bstart, t, OpDel.NeedWh(br, dirs[k.dir], k, di.bstart, t)),
                    dirs[k.dir := WithDir(dirs[k.dir], t)])
  {
    hide View, Vis, Stack.NeverBoth, Stack.MarksOk, Stack.NoOrphans;
    var need := OpDel.NeedWh(br, dirs[k.dir], k, di.bstart, t);
    OpDel.UnlinkOutcome(br, dirs, k, di.bstart, t);
    OnlyAtRespects(br, OpDel.Unlinked(br, k, di.bstart, t, need), t);
    UnlinkMay(br, dirs, k, di);
    UnlinkEvolves(br, dirs, k, di, t, need);
  }

  lemma {:induction false} UnlinkEvolves(br: seq<Branch>, dirs: Dirs, k: Key, di: DInfo, t: nat, need: bool)
    requires AtRest(br, dirs) && Plain(k) && k.dir in dirs && FileInfo(br, dirs[k.dir], k, di) && t <= di.bstart
    ensures Evolves(br, OpDel.Unlinked(br, k, di.bstart, t, need), dirs.Keys)
  {
    hide Vis;
    var br' := OpDel.Unlinked(br, k, di.bstart, t, need);
    OpDel.NoStaleWh(br, dirs, k, di.bstart);
    assert OnlyAt(br, br', t);
    EvolvesAt(br, br', t, dirs.Keys, if t == di.bstart then {k, Wh(k)} else {Wh(k)});
  }

  lemma {:induction false} UnlinkMay(br: seq<Branch>, dirs: Dirs, k: Key, di: DInfo)
    requires AtRest(br, dirs) && Plain(k) && k.dir in dirs && FileInfo(br, dirs[k.dir], k, di)
    ensures May(View(br, dirs), Unlink(k))
  {
    hide View;
    VisSkip(br, dirs[k.dir], k, 0, di.bstart);
    InView(br, dirs, k);
  }

  lemma {:induction false} AddRefines(br: seq<Branch>, dirs: Dirs, k: Key, e: Ent, op: Op, t: nat)
    requires AtRest(br, dirs) && Plain(k) && k.dir in dirs && Vis(br, dirs[k.dir], k, 0) == None
    requires op == (if e.typ == DIR then Mkdir(k, e.file) else Create(k, e.typ, e.file))
    requires t <= dirs[k.dir].bstart && !br[t].Rdonly()
    requires e.typ == DIR ==> (Wh(k) in br[t].ents ==> e.opq) && e.file !in dirs && OpAdd.Fits(br, k, e.file)
    ensures t < |br| == |dirs[k.dir].h|
    ensures DirOk(|br|, WithDir(dirs[k.dir], t))
    ensures var br' := OpAdd.Added(br, t, k, e); Refines(br, dirs, op, 0, true, br', WithNew(br', dirs, k, e, t))
  {
    hide View, Vis, WithNew, Stack.NeverBoth, Stack.MarksOk, Stack.NoOrphans, OpAdd.Fits, Names.Plain;
    var br' := OpAdd.Added(br, t, k, e);
    GrowDirOk(|br|, dirs[k.dir], t);
    AddState(br, dirs, k, e, t);
    OnlyAtRespects(br, br', t);
    InView(br, dirs, k);
    AddEvolves(br, dirs, k, e, t);
  }

  /** What the added state shows, with a new directory among the directories. */
  lemma {:induction false} AddState(br: seq<Branch>, dirs: Dirs, k: Key, e: Ent, t: nat)
    requires AtRest(br, dirs) && Plain(k) && k.dir in dirs && Vis(br, dirs[k.dir], k, 0) == None
    requires t <= dirs[k.dir].bstart && t < |br| == |dirs[k.dir].h| && DirOk(|br|, WithDir(dirs[k.dir], t))
    requires e.typ == DIR ==> (Wh(k) in br[t].ents ==> e.opq) && e.file !in dirs && OpAdd.Fits(br, k, e.file)
    ensures var br' := OpAdd.Added(br, t, k, e); var dirs' := WithNew(br', dirs, k, e, t);
            && dirs'.Keys == dirs.Keys + (if e.typ == DIR then {e.file} else {})
            && AtRest(br', dirs') && View(br', dirs') == View(br, dirs)[k := ObjOf(e)]
  {
    hide View, Vis, Stack.NeverBoth, Stack.MarksOk, Stack.NoOrphans, OpAdd.Fits;
    OpAdd.AddOutcome(br, dirs, k, e, t);
    if e.typ == DIR {
      OpAdd.NewDirEmpty(br, dirs, k, e, t, e.file);
    }
  }

  /** The directories after an addition on branch t: the parent is there, and a new directory is
      known as a lookup finds it. */
  function WithNew(br: seq<Branch>, dirs: Dirs, k: Key, e: Ent, t: nat): Dirs
    requires k.dir in dirs && t < |dirs[k.dir].h| == |br| && DirOk(|br|, WithDir(dirs[k.dir], t))
  {
    var dirs' := dirs[k.dir := WithDir(dirs[k.dir], t)];
    if e.typ == DIR then dirs'[e.file := FreshInfo(br, dirs'[k.dir], k)] else dirs'
  }

  lemma {:induction false} AddEvolves(br: seq<Branch>, dirs: Dirs, k: Key, e: Ent, t: nat)
    requires AtRest(br, dirs) && Plain(k) && k.dir in dirs && t <= dirs[k.dir].bstart
    requires Vis(br, dirs[k.dir], k, 0) == None
    ensures t < |br| && Evolves(br, OpAdd.Added(br, t, k, e), dirs.Keys)
  {
    hide Vis;
    OpAdd.NegWh(br, dirs, k, t);
    var br' := OpAdd.Added(br, t, k, e);
    assert MarksOk(br[t]);
    assert OnlyAt(br, br', t);
    EvolvesAt(br, br', t, dirs.Keys, {k, Wh(k)});
  }

  lemma {:induction false} RestoredEvolves(br: seq<Branch>, br': seq<Branch>, dirs: Dirs, k: Key, t: nat)
    requires AtRest(br, dirs) && Plain(k) && k.dir in dirs && t < |br| && OpAdd.Restored(br, br', t, k)
    ensures Evolves(br, br', dirs.Keys)
  {
    assert MarksOk(br[t]);
    assert OnlyAt(br, br', t);
    EvolvesAt(br, br', t, dirs.Keys, {Wh(k)});
  }

  lemma {:induction false} RenameRefines(br: seq<Branch>, dirs: Dirs, s: Key, d: Key, si: DInfo, ti: DInfo, t: nat)
    requires OpRen.Asked(br, dirs, s, d, si, ti, t)
    requires AllWhable(br) && !br[t].Rdonly()
    ensures t < |br| == |dirs[s.dir].h| == |dirs[d.dir].h| && si.bstart < |br| && s in br[si.bstart].ents
    ensures var need := OpDel.NeedWh(br, dirs[s.dir], s, si.bstart, t);
            Refines(br, dirs, Rename(s, d), 0, true, OpRen.Renamed(br, t, s, d, br[si.bstart].ents[s], need),
                    OpRen.BothGrown(dirs, s.dir, d.dir, t))
  {
    hide Vis, Stack.NeverBoth, Stack.MarksOk, Stack.NoOrphans, View, Respects, Evolves;
    var need := OpDel.NeedWh(br, dirs[s.dir], s, si.bstart, t);
    OpRen.RenameOutcome(br, dirs, s, d, si, ti, t);
    OnlyAtRespects(br, OpRen.Renamed(br, t, s, d, br[si.bstart].ents[s], need), t);
    RenameMay(br, dirs, s, d, si, ti, t);
    RenameEvolves(br, dirs, s, d, si, ti, t, need);
  }

  lemma {:induction false} RenameEvolves(br: seq<Branch>, dirs: Dirs, s: Key, d: Key, si: DInfo, ti: DInfo, t: nat, need: bool)
    requires OpRen.Asked(br, dirs, s, d, si, ti, t)
    ensures t < |br| && si.bstart < |br| && s in br[si.bstart].ents
    ensures var e := br[si.bstart].ents[s];
            && Evolves(br, OpRen.Renamed(br, t, s, d, e, need), dirs.Keys)
            && Evolves(br, Put(br, t, s, e), dirs.Keys)
  {
    hide Vis;
    OpRen.AskedCan(br, dirs, s, d, si, ti, t);
    var e := br[si.bstart].ents[s];
    var br', br2 := OpRen.Renamed(br, t, s, d, e, need), Put(br, t, s, e);
    assert MarksOk(br[t]);
    assert d in br[t].ents ==> br[t].ents[d].typ != DIR;
    assert s in br[t].ents ==> br[t].ents[s].typ != DIR;
    assert OnlyAt(br, br', t) && OnlyAt(br, br2, t);
    EvolvesAt(br, br', t, dirs.Keys, {s, d, Wh(s), Wh(d)});
    EvolvesAt(br, br2, t, dirs.Keys, {s});
  }

  /** What the dentries say is what the flat namespace says. */
  lemma {:induction false} RenameMay(br: seq<Branch>, dirs: Dirs, s: Key, d: Key, si: DInfo, ti: DInfo, t: nat)
    requires OpRen.Asked(br, dirs, s, d, si, ti, t)
    ensures si.bstart < |br| && s in br[si.bstart].ents
    ensures May(View(br, dirs), Rename(s, d)) && !NoAction(View(br, dirs), Rename(s, d))
    ensures View(br, dirs)[s] == ObjOf(br[si.bstart].ents[s])
  {
    VisSkip(br, dirs[s.dir], s, 0, si.bstart);
    InView(br, dirs, s);
    InView(br, dirs, d);
    if !NegInfo(br, dirs[d.dir], d, ti) {
      VisSkip(br, dirs[d.dir], d, 0, ti.bstart);
    }
  }

  method SysUnlink(u: U.Union, k: Key) returns (err: int)
    requires u.AtRest() && AllWhable(u.br) && Plain(k) && k.dir in u.dirs
    modifies u
    ensures Refines(old(u.br), old(u.dirs), Unlink(k), err, Whole(err, old(u.failed), u.failed), u.br, u.dirs)
    ensures old(u.failed) <= u.failed
    ensures Decides(old(u.br), old(u.dirs), Unlink(k), err)
  {
    hide View, Vis, Stack.NoOrphans, FreshInfo;
    InView(u.br, u.dirs, k);
    var d;
    err, d := Find(u, k);
    if err < 0 {
      return;
    }
    if err == 0 {
      return -ENOENT;
    }
    if u.br[d.di.bstart].ents[k].typ.DIR? {
      return -U.EISDIR;
    }
    ghost var br0, dirs0, di := u.br, u.dirs, d.di;
    ghost var t := U.Target(br0, dirs0[k.dir], di.bstart);
    U.TargetFacts(br0, dirs0[k.dir], di.bstart);
    ReadOnlyOne(br0, dirs0, Unlink(k), di);
    UnlinkMay(br0, dirs0, k, di);
    err := OpDel.AufsUnlink(u, d);
    if t >= 0 {
      assert dirs0[k.dir].On(di.bstart);
      GrownKeeps(br0, dirs0, u.dirs, k.dir, t);
      if err == 0 {
        UnlinkRefines(br0, dirs0, k, di, t);
      } else {
        EvolvesAt(br0, br0, t, dirs0.Keys, {});
        NoChange(br0, dirs0, Unlink(k), err, Whole(err, old(u.failed), u.failed), t, u.br, u.dirs);
      }
    }
  }

  /** create(2), mknod(2), symlink(2). */
  method SysCreate(u: U.Union, k: Key, typ: FType, file: nat) returns (err: int)
    requires u.AtRest() && Plain(k) && k.dir in u.dirs && typ != DIR
    modifies u
    ensures Refines(old(u.br), old(u.dirs), Create(k, typ, file), err, Whole(err, old(u.failed), u.failed), u.br, u.dirs)
    ensures old(u.failed) <= u.failed
    ensures Decides(old(u.br), old(u.dirs), Create(k, typ, file), err)
  {
    InView(u.br, u.dirs, k);
    var d;
    err, d := Find(u, k);
    if err < 0 {
      return;
    }
    if err > 0 {
      return -U.EEXIST;
    }
    ghost var br0, dirs0, di := u.br, u.dirs, d.di;
    ghost var t := U.Target(br0, dirs0[k.dir], di.bstart);
    U.TargetFacts(br0, dirs0[k.dir], di.bstart);
    ReadOnlyOne(br0, dirs0, Create(k, typ, file), di);
    err := OpAdd.AddSimple(u, d, Ent(typ, file, false));
    if t >= 0 {
      GrowDirOk(|br0|, dirs0[k.dir], t);
      Created(br0, dirs0, k, Ent(typ, file, false), Create(k, typ, file), err, Whole(err, old(u.failed), u.failed), t, u.br, u.dirs);
    }
  }

  method SysMkdir(u: U.Union, k: Key, file: Dir, alwaysDiropq: bool) returns (err: int)
    requires u.AtRest() && Plain(k) && k.dir in u.dirs
    requires Vis(u.br, u.dirs[k.dir], k, 0) == None ==> file !in u.dirs && OpAdd.Fits(u.br, k, file)
    modifies u
    ensures Refines(old(u.br), old(u.dirs), Mkdir(k, file), err, Whole(err, old(u.failed), u.failed), u.br, u.dirs)
    ensures old(u.failed) <= u.failed
    ensures Decides(old(u.br), old(u.dirs), Mkdir(k, file), err)
    ensures err == 0 ==> u.AtRest() && EmptyOne(u.br, u.dirs, k, file)
  {
    hide View, Vis, OpAdd.Fits, EmptyOne, Stack.NoOrphans, Stack.MarksOk, Stack.NeverBoth;
    InView(u.br, u.dirs, k);
    var d;
    err, d := Find(u, k);
    if err < 0 {
      return;
    }
    if err > 0 {
      return -U.EEXIST;
    }
    err := MakeDir(u, d, file, alwaysDiropq);
  }

  /** The directory made as k is made of one branch only, and is empty. */
  ghost predicate EmptyOne(br: seq<Branch>, dirs: Dirs, k: Key, file: Dir)
    requires DirsOk(|br|, dirs)
  {
    && k.dir in dirs && file in dirs && |Merged(br, dirs[k.dir], k)| == 1
    && forall n :: Vis(br, dirs[file], Key(file, n), 0) == None
  }

  /** mkdir(2) of a name that was looked up and is not there. */
  method MakeDir(u: U.Union, d: Dentry, file: Dir, alwaysDiropq: bool) returns (err: int)
    requires u.AtRest() && u.FreshNeg(d) && Vis(u.br, u.dirs[d.key.dir], d.key, 0) == None
    requires file !in u.dirs && OpAdd.Fits(u.br, d.key, file)
    modifies u, d
    ensures Refines(old(u.br), old(u.dirs), Mkdir(d.key, file), err, Whole(err, old(u.failed), u.failed), u.br, u.dirs)
    ensures old(u.failed) <= u.failed
    ensures Decides(old(u.br), old(u.dirs), Mkdir(d.key, file), err)
    ensures err == 0 ==> u.AtRest() && EmptyOne(u.br, u.dirs, d.key, file)
  {
    hide View, Vis, OpAdd.Fits, EmptyOne, Stack.NoOrphans;
    var k := d.key;
    ghost var br0, dirs0, di := u.br, u.dirs, d.di;
    ghost var t := U.Target(br0, dirs0[k.dir], di.bstart);
    U.TargetFacts(br0, dirs0[k.dir], di.bstart);
    InView(br0, dirs0, k);
    ReadOnlyOne(br0, dirs0, Mkdir(k, file), di);
    if t >= 0 {
      OpAdd.NoneAbove(br0, dirs0, k, t, file);
    }
    err := OpAdd.AufsMkdir(u, d, file, alwaysDiropq);
    ghost var e := Ent(DIR, file, alwaysDiropq || (t >= 0 && Wh(k) in br0[t].ents));
    if err == 0 {
      NewEmpty(br0, dirs0, k, e, t);
      // its dentry, as a lookup would have it
      u.dirs := u.dirs[file := FreshInfo(u.br, u.dirs[k.dir], k)];
    }
    if t >= 0 {
      GrowDirOk(|br0|, dirs0[k.dir], t);
      Created(br0, dirs0, k, e, Mkdir(k, file), err, Whole(err, old(u.failed), u.failed), t, u.br, u.dirs);
    }
  }

  lemma {:induction false} NewEmpty(br: seq<Branch>, dirs: Dirs, k: Key, e: Ent, t: nat)
    requires AtRest(br, dirs) && Plain(k) && k.dir in dirs && Vis(br, dirs[k.dir], k, 0) == None
    requires t <= dirs[k.dir].bstart && e.typ == DIR && (Wh(k) in br[t].ents ==> e.opq)
    requires e.file !in dirs && OpAdd.Fits(br, k, e.file)
    ensures t < |br| == |dirs[k.dir].h| && DirOk(|br|, WithDir(dirs[k.dir], t))
    ensures var br' := OpAdd.Added(br, t, k, e); var dirs' := WithNew(br', dirs, k, e, t);
            AtRest(br', dirs') && EmptyOne(br', dirs', k, e.file)
  {
    hide View, Vis, OpAdd.Fits, OpAdd.Added, Stack.NoOrphans, Stack.MarksOk, Stack.NeverBoth;
    GrowDirOk(|br|, dirs[k.dir], t);
    OpAdd.MkdirOutcome(br, dirs, k, e, t);
    OpAdd.NewDirEmpty(br, dirs, k, e, t, e.file);
  }

  lemma {:induction false} Created(br: seq<Branch>, dirs: Dirs, k: Key, e: Ent, op: Op, err: int, kept: bool, t: nat,
                                   br': seq<Branch>, dirs': Dirs)
    requires AtRest(br, dirs) && Plain(k) && k.dir in dirs && Vis(br, dirs[k.dir], k, 0) == None
    requires op == (if e.typ == DIR then Mkdir(k, e.file) else Create(k, e.typ, e.file))
    requires t <= dirs[k.dir].bstart && !br[t].Rdonly()
    requires e.typ == DIR ==> (Wh(k) in br[t].ents ==> e.opq) && e.file !in dirs && OpAdd.Fits(br, k, e.file)
    requires err == 0 ==> kept
    requires OnlyAt(br, br', t) && t < |dirs[k.dir].h| == |br| && DirOk(|br|, WithDir(dirs[k.dir], t))
    requires err != 0 ==> Grown(dirs, dirs', k.dir, t)
    requires err == 0 ==> br' == OpAdd.Added(br, t, k, e) && dirs' == WithNew(br', dirs, k, e, t)
    requires err != 0 && kept ==> OpAdd.Restored(br, br', t, k)
    ensures Refines(br, dirs, op, err, kept, br', dirs')
  {
    if err == 0 {
      AddRefines(br, dirs, k, e, op, t);
    } else {
      GrownKeeps(br, dirs, dirs', k.dir, t);
      if kept {
        OpAdd.RestoredOutcome(br, br', dirs', t, k);
        RestoredEvolves(br, br', dirs, k, t);
      }
      NoChange(br, dirs, op, err, kept, t, br', dirs');
    }
  }

  /** rename(2); directories are not renamed here. */
  method SysRename(u: U.Union, s: Key, t: Key) returns (err: int)
    requires u.AtRest() && AllWhable(u.br) && s != t
    requires Plain(s) && s.dir in u.dirs && Plain(t) && t.dir in u.dirs
    modifies u
    ensures Refines(old(u.br), old(u.dirs), Rename(s, t), err, Whole(err, old(u.failed), u.failed), u.br, u.dirs)
    ensures old(u.failed) <= u.failed
    ensures Decides(old(u.br), old(u.dirs), Rename(s, t), err)
  {
    hide View, Vis, ReadOnly, Stack.NoOrphans, Stack.MarksOk, Stack.NeverBoth, AllWhable, DirInfo, FileInfo;
    InView(u.br, u.dirs, s);
    InView(u.br, u.dirs, t);
    var src, dst;
    err, src := Find(u, s);
    if err < 0 {
      return;
    }
    if err == 0 {
      return -ENOENT;
    }
    if u.br[src.di.bstart].ents[s].typ.DIR? {
      return -U.EISDIR;
    }
    err, dst := Find(u, t);
    if err < 0 {
      return;
    }
    if err > 0 {
      if u.br[dst.di.bstart].ents[t].typ.DIR? {
        return -U.EISDIR;
      }
      // the kernel does not even ask
      if u.SameFile(src, dst) {
        return 0;
      }
    } else {
      OpAdd.NegWh(u.br, u.dirs, t, u.dirs[t.dir].bstart);
    }
    ghost var br0, dirs0, si, ti := u.br, u.dirs, src.di, dst.di;
    ghost var b := OpRen.RenTarget(br0, dirs0[t.dir], ti.bstart, si.bstart);
    U.TargetFacts(br0, dirs0[t.dir], OpAdd.Wanted(ti.bstart, si.bstart));
    ReadOnlyTwo(br0, dirs0, s, t, si, ti);
    err := OpRen.AufsRename(u, src, dst);
    if b >= 0 {
      Renamed(br0, dirs0, s, t, si, ti, err, Whole(err, old(u.failed), u.failed), b, u.br, u.dirs);
    }
  }

  lemma {:induction false} Renamed(br: seq<Branch>, dirs: Dirs, s: Key, d: Key, si: DInfo, ti: DInfo, err: int, kept: bool,
                                   t: nat, br': seq<Branch>, dirs': Dirs)
    requires OpRen.Asked(br, dirs, s, d, si, ti, t) && AllWhable(br) && !br[t].Rdonly()
    requires OnlyAt(br, br', t) && OpRen.PartGrown(dirs, dirs', s.dir, d.dir, t)
    requires err == 0 ==> br' == OpRen.Renamed(br, t, s, d, br[si.bstart].ents[s], OpDel.NeedWh(br, dirs[s.dir], s, si.bstart, t))
                          && dirs' == OpRen.BothGrown(dirs, s.dir, d.dir, t)
    requires err == 0 ==> kept
    requires err != 0 && kept ==>
               br' == br || (br' == Put(br, t, s, br[si.bstart].ents[s]) && dirs' == OpRen.BothGrown(dirs, s.dir, d.dir, t))
    ensures Refines(br, dirs, Rename(s, d), err, kept, br', dirs')
  {
    hide AtRest;
    if err == 0 {
      RenameRefines(br, dirs, s, d, si, ti, t);
    } else {
      if kept {
        OpRen.UnrenamedOutcome(br, dirs, s, d, si, ti, t, br', dirs');
        RenameEvolves(br, dirs, s, d, si, ti, t, false);
        EvolvesAt(br, br, t, dirs.Keys, {});
      }
      NoChange(br, dirs, Rename(s, d), err, kept, t, br', dirs');
    }
  }

  /** What is visible has a topmost branch. */
  lemma {:induction false} FirstHit(br: seq<Branch>, p: DInfo, k: Key, b: nat) returns (b0: nat)
    requires b <= |br| == |p.h| && Clear(br, p, k, 0, b) && Vis(br, p, k, b).Some?
    ensures Topmost(br, p, k, b0)
    decreases |br| - b
  {
    if CellAt(br, p, k, b).Hit? {
      b0 := b;
    } else {
      b0 := FirstHit(br, p, k, b + 1);
    }
  }

  lemma {:induction false} SomePlace(br: seq<Branch>, p: DInfo, k: Key) returns (b: nat)
    requires DirOk(|br|, p)
    ensures Place(br, p, k, b)
  {
    if Vis(br, p, k, 0) == None {
      b := p.bstart;
    } else {
      b := FirstHit(br, p, k, 0);
    }
  }

  /** A writable top branch is always a branch to write. */
  lemma {:induction false} WritableTop(br: seq<Branch>, dirs: Dirs, op: Op)
    requires DirsOk(|br|, dirs) && op.Names(dirs) && |br| > 0 && !br[0].Rdonly()
    ensures !ReadOnly(br, dirs, op)
  {
    hide Place;
    match op
    case Rename(s, d) =>
      var b := SomePlace(br, dirs[s.dir], s);
      var c := SomePlace(br, dirs[d.dir], d);
    case _ =>
      var b := SomePlace(br, dirs[op.key.dir], op.key);
  }

  /** A new directory gets an identity that no other one has. */
  ghost predicate NewOk(br: seq<Branch>, dirs: Dirs, op: Op)
    requires DirsOk(|br|, dirs)
  {
    op.Mkdir? && op.key.dir in dirs && Vis(br, dirs[op.key.dir], op.key, 0) == None ==>
      op.file !in dirs && OpAdd.Fits(br, op.key, op.file)
  }

  /** One system call of a run. */
  method Apply(u: U.Union, op: Op, alwaysDiropq: bool) returns (err: int)
    requires u.AtRest() && AllWhable(u.br) && op.Proper() && NewOk(u.br, u.dirs, op)
    modifies u
    ensures Refines(old(u.br), old(u.dirs), op, err, Whole(err, old(u.failed), u.failed), u.br, u.dirs)
    ensures old(u.failed) <= u.failed
    ensures Decides(old(u.br), old(u.dirs), op, err)
  {
    hide View, Vis, OpAdd.Fits, Stack.NoOrphans, Stack.MarksOk, Stack.NeverBoth;
    match op {
      case Create(k, t, f) =>
        if k.dir in u.dirs {
          err := SysCreate(u, k, t, f);
          return;
        }
      case Mkdir(k, f) =>
        if k.dir in u.dirs {
          err := SysMkdir(u, k, f, alwaysDiropq);
          return;
        }
      case Unlink(k) =>
        if k.dir in u.dirs {
          err := SysUnlink(u, k);
          return;
        }
      case Rename(s, d) =>
        if s.dir in u.dirs && d.dir in u.dirs {
          err := SysRename(u, s, d);
          return;
        }
    }
    err := -ENOENT;
  }

  /** The directories there are after the first n calls of a run that returned errs. */
  ghost function DirsRun(ds: set<Dir>, ops: seq<Op>, errs: seq<int>, n: nat): set<Dir>
    requires n <= |ops| && n <= |errs|
  {
    if n == 0 then ds else DirsRun(ds, ops, errs, n - 1) + ops[n - 1].Makes(errs[n - 1])
  }

  /** The flat namespace after them. */
  ghost function FlatRun(v: Flat, ops: seq<Op>, errs: seq<int>, n: nat): Flat
    requires n <= |ops| && n <= |errs|
  {
    if n == 0 then v
    else
      var v' := FlatRun(v, ops, errs, n - 1);
      if errs[n - 1] == 0 then Step(v', ops[n - 1]) else v'
  }

  lemma {:induction false} RunPrefix(ds: set<Dir>, v: Flat, ops: seq<Op>, errs: seq<int>, errs': seq<int>, n: nat)
    requires n <= |ops| && n <= |errs| <= |errs'| && errs == errs'[..|errs|]
    ensures FlatRun(v, ops, errs', n) == FlatRun(v, ops, errs, n)
    ensures DirsRun(ds, ops, errs', n) == DirsRun(ds, ops, errs, n)
  {
    if n > 0 {
      RunPrefix(ds, v, ops, errs, errs', n - 1);
      assert errs'[n - 1] == errs[n - 1];
    }
  }

  lemma {:induction false} RespectsTrans(a: seq<Branch>, b: seq<Branch>, c: seq<Branch>)
    requires Respects(a, b) && Respects(b, c)
    ensures Respects(a, c)
  {
    forall i | 0 <= i < |a| ensures c[i] == a[i].(ents := c[i].ents) && (a[i].Rdonly() ==> c[i] == a[i]) {
      assert b[i] == a[i].(ents := b[i].ents) && c[i] == b[i].(ents := c[i].ents);
    }
  }

  /** May the call n of a run succeed where it happens? */
  ghost predicate MayNow(ds: set<Dir>, v: Flat, ops: seq<Op>, errs: seq<int>, n: nat)
    requires n < |ops| && n <= |errs|
  {
    ops[n].In(DirsRun(ds, ops, errs, n)) && May(FlatRun(v, ops, errs, n), ops[n])
  }

  /** Every success of a run was allowed where it happened. */
  ghost predicate Allowed(ds: set<Dir>, v: Flat, ops: seq<Op>, errs: seq<int>) {
    |errs| <= |ops| && forall i :: 0 <= i < |errs| && errs[i] == 0 ==> MayNow(ds, v, ops, errs, i)
  }

  /** Each call of a run succeeded exactly when it was allowed. */
  ghost predicate Exact(ds: set<Dir>, v: Flat, ops: seq<Op>, errs: seq<int>) {
    |errs| <= |ops| && forall i :: 0 <= i < |errs| ==> errs[i] != -EIO && (errs[i] == 0 <==> MayNow(ds, v, ops, errs, i))
  }

  lemma {:induction false} NowMore(ds: set<Dir>, v: Flat, ops: seq<Op>, errs: seq<int>, err: int)
    requires |errs| < |ops|
    ensures forall i :: 0 <= i <= |errs| ==> (MayNow(ds, v, ops, errs + [err], i) <==> MayNow(ds, v, ops, errs, i))
    ensures FlatRun(v, ops, errs + [err], |errs|) == FlatRun(v, ops, errs, |errs|)
    ensures DirsRun(ds, ops, errs + [err], |errs|) == DirsRun(ds, ops, errs, |errs|)
  {
    forall i | 0 <= i <= |errs|
      ensures MayNow(ds, v, ops, errs + [err], i) <==> MayNow(ds, v, ops, errs, i)
    {
      RunPrefix(ds, v, ops, errs, errs + [err], i);
    }
    RunPrefix(ds, v, ops, errs, errs + [err], |errs|);
  }

  lemma {:induction false} OneMore(ds: set<Dir>, v: Flat, ops: seq<Op>, errs: seq<int>, err: int)
    requires |errs| < |ops| && Allowed(ds, v, ops, errs) && (err == 0 ==> MayNow(ds, v, ops, errs, |errs|))
    ensures Allowed(ds, v, ops, errs + [err])
    ensures var n, v' := |errs|, FlatRun(v, ops, errs, |errs|);
            && FlatRun(v, ops, errs + [err], n + 1) == (if err == 0 then Step(v', ops[n]) else v')
            && DirsRun(ds, ops, errs + [err], n + 1) == DirsRun(ds, ops, errs, n) + ops[n].Makes(err)
  {
    hide MayNow, Step;
    NowMore(ds, v, ops, errs, err);
  }

  /** Lower calls do not fail and the top branch can be written. */
  predicate Smooth(br: seq<Branch>) {
    !FAULTS && |br| > 0 && !br[0].Rdonly()
  }

  /** Each directory a run is to make is in the view if it was made; if not, what the branches
      hold of it is in lower directories of its name. */
  ghost predicate MadeOk(br: seq<Branch>, ds: set<Dir>, v: Flat, ops: seq<Op>) {
    forall op :: op in ops && op.Mkdir? ==>
                   if op.file in ds then op.key in v && v[op.key].typ == DIR else OpAdd.Fits(br, op.key, op.file)
  }

  /** The calls of a run are proper, and each directory it makes has its own identity. */
  ghost predicate Script(ops: seq<Op>) {
    && (forall op :: op in ops ==> op.Proper())
    && forall p, q :: p in ops && q in ops && p.Mkdir? && q.Mkdir? && p.file == q.file ==> p.key == q.key
  }

  /** Directories are never lost from the view. */
  lemma {:induction false} DirStays(v: Flat, op: Op, k: Key)
    requires May(v, op) && k in v && v[k].typ == DIR
    ensures k in Step(v, op) && Step(v, op)[k] == v[k]
  {
  }

  lemma {:induction false} FitsKept(br: seq<Branch>, br': seq<Branch>, ds: set<Dir>, k: Key, nd: Dir)
    requires OpAdd.Fits(br, k, nd) && Evolves(br, br', ds) && nd !in ds
    ensures OpAdd.Fits(br', k, nd)
  {
    forall j, x | 0 <= j < |br'| && x in br'[j].ents && x.dir == nd
      ensures k in br'[j].ents && br'[j].ents[k].typ == DIR
    {
      assert x in br[j].ents;
    }
  }

  lemma {:induction false} MadeKept(ops: seq<Op>, op: Op, err: int, br: seq<Branch>, dirs: Dirs, br': seq<Branch>, dirs': Dirs)
    requires AtRest(br, dirs) && Script(ops) && op in ops && MadeOk(br, dirs.Keys, View(br, dirs), ops)
    requires Refines(br, dirs, op, err, true, br', dirs')
    ensures MadeOk(br', dirs'.Keys, View(br', dirs'), ops)
  {
    hide View, OpAdd.Fits, Respects, Evolves, Stack.NoOrphans, Stack.MarksOk, Stack.NeverBoth;
    var v, v', ds, ds' := View(br, dirs), View(br', dirs'), dirs.Keys, dirs'.Keys;
    forall m | m in ops && m.Mkdir?
      ensures if m.file in ds' then m.key in v' && v'[m.key].typ == DIR else OpAdd.Fits(br', m.key, m.file)
    {
      if m.file !in ds' {
        FitsKept(br, br', ds, m.key, m.file);
      } else if m.file in ds && err == 0 {
        DirStays(v, op, m.key);
      }
    }
  }

  /** The union after the calls of a run so far, all of which kept it whole. */
  ghost predicate Running(br0: seq<Branch>, dirs0: Dirs, ops: seq<Op>, errs: seq<int>, br: seq<Branch>, dirs: Dirs)
    requires AtRest(br0, dirs0)
  {
    && |errs| <= |ops| && AtRest(br, dirs) && AllWhable(br) && Respects(br0, br)
    && Allowed(dirs0.Keys, View(br0, dirs0), ops, errs)
    && dirs.Keys == DirsRun(dirs0.Keys, ops, errs, |errs|)
    && View(br, dirs) == FlatRun(View(br0, dirs0), ops, errs, |errs|)
    && MadeOk(br, dirs.Keys, View(br, dirs), ops)
  }

  lemma {:induction false} NewNow(br: seq<Branch>, dirs: Dirs, ops: seq<Op>, op: Op)
    requires AtRest(br, dirs) && Script(ops) && op in ops && MadeOk(br, dirs.Keys, View(br, dirs), ops)
    ensures NewOk(br, dirs, op)
  {
    hide View, Vis, OpAdd.Fits, Stack.NoOrphans, Stack.MarksOk, Stack.NeverBoth;
    if op.Mkdir? && op.key.dir in dirs {
      InView(br, dirs, op.key);
    }
  }

  lemma {:induction false} ExactStep(br0: seq<Branch>, dirs0: Dirs, ops: seq<Op>, errs: seq<int>,
                                     br: seq<Branch>, dirs: Dirs, err: int)
    requires AtRest(br0, dirs0) && Running(br0, dirs0, ops, errs, br, dirs) && |errs| < |ops|
    requires ops[|errs|].Proper() && Decides(br, dirs, ops[|errs|], err)
    requires Smooth(br0) && Exact(dirs0.Keys, View(br0, dirs0), ops, errs)
    ensures Exact(dirs0.Keys, View(br0, dirs0), ops, errs + [err]) && err != -EIO
  {
    hide View, ReadOnly, May, FlatRun, DirsRun, MadeOk, Allowed, Stack.NoOrphans, Stack.MarksOk, Stack.NeverBoth;
    var op := ops[|errs|];
    assert br[0] == br0[0].(ents := br[0].ents);
    if op.In(dirs.Keys) {
      WritableTop(br, dirs, op);
    }
    NowMore(dirs0.Keys, View(br0, dirs0), ops, errs, err);
  }

  /** One more call keeps the union in step with the flat directory. */
  lemma {:induction false} RunStep(br0: seq<Branch>, dirs0: Dirs, ops: seq<Op>, errs: seq<int>,
                                   br: seq<Branch>, dirs: Dirs, err: int, kept: bool, br': seq<Branch>, dirs': Dirs)
    requires AtRest(br0, dirs0) && Script(ops) && Running(br0, dirs0, ops, errs, br, dirs) && |errs| < |ops|
    requires Refines(br, dirs, ops[|errs|], err, kept, br', dirs') && (err == 0 ==> kept)
    ensures Respects(br0, br') && Allowed(dirs0.Keys, View(br0, dirs0), ops, errs + [err])
    ensures kept ==> Running(br0, dirs0, ops, errs + [err], br', dirs')
  {
    hide View, May, Step, MadeOk, Evolves, Allowed, FlatRun, DirsRun, Stack.NoOrphans, Stack.MarksOk, Stack.NeverBoth;
    RespectsTrans(br0, br, br');
    OneMore(dirs0.Keys, View(br0, dirs0), ops, errs, err);
    if kept {
      MadeKept(ops, ops[|errs|], err, br, dirs, br', dirs');
    }
  }

  /** A run of system calls under any faults, which may go on inside the directories it makes: the
      merged view goes through exactly the flat states of the calls that succeeded, each of which
      was allowed; the namespace is at rest throughout, and no read-only branch changes. It ends
      early only when a call returns EIO after more than one lower failure. */
  method Run(u: U.Union, ops: seq<Op>, alwaysDiropq: bool) returns (errs: seq<int>, whole: bool)
    requires u.AtRest() && AllWhable(u.br) && Script(ops)
    requires forall op :: op in ops && op.Mkdir? ==> op.file !in u.dirs && OpAdd.Fits(u.br, op.key, op.file)
    modifies u
    ensures |errs| <= |ops| && old(u.failed) <= u.failed
    ensures !whole ==> errs != [] && errs[|errs| - 1] == -EIO && u.failed >= old(u.failed) + 2
    ensures Respects(old(u.br), u.br) && Allowed(old(u.dirs).Keys, old(u.View()), ops, errs)
    ensures whole ==> |errs| == |ops| && u.AtRest() && u.View() == FlatRun(old(u.View()), ops, errs, |ops|)
    ensures whole ==> u.dirs.Keys == DirsRun(old(u.dirs).Keys, ops, errs, |ops|)
    // without lower failures and with a writable top branch the union is the flat directory
    ensures Smooth(old(u.br)) ==> whole && Exact(old(u.dirs).Keys, old(u.View()), ops, errs)
  {
    hide FlatRun, DirsRun, May, OpAdd.Fits, Exact, Allowed, Stack.NoOrphans, Stack.MarksOk, Stack.NeverBoth, View;
    errs, whole := [], true;
    ghost var br0, dirs0 := u.br, u.dirs;
    Started(br0, dirs0, ops);
    while |errs| < |ops|
      invariant Running(br0, dirs0, ops, errs, u.br, u.dirs) && old(u.failed) <= u.failed
      invariant Smooth(br0) ==> Exact(dirs0.Keys, View(br0, dirs0), ops, errs)
      decreases |ops| - |errs|
    {
      ghost var br1, dirs1 := u.br, u.dirs;
      var before := u.failed;
      NewNow(br1, dirs1, ops, ops[|errs|]);
      var err := Apply(u, ops[|errs|], alwaysDiropq);
      if Smooth(br0) {
        ExactStep(br0, dirs0, ops, errs, br1, dirs1, err);
      }
      RunStep(br0, dirs0, ops, errs, br1, dirs1, err, Whole(err, before, u.failed), u.br, u.dirs);
      errs := errs + [err];
      if !Whole(err, before, u.failed) {
        whole := false;
        return;
      }
    }
  }

  lemma {:induction false} Started(br: seq<Branch>, dirs: Dirs, ops: seq<Op>)
    requires AtRest(br, dirs) && AllWhable(br)
    requires forall op :: op in ops && op.Mkdir? ==> op.file !in dirs && OpAdd.Fits(br, op.key, op.file)
    ensures Running(br, dirs, ops, [], br, dirs) && Exact(dirs.Keys, View(br, dirs), ops, [])
  {
  }
}
