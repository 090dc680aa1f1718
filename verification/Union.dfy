/** The union as an object: lower operations that may fail, the choice of a writable
    branch, and the preparation steps shared by the namespace operations. */
module Union {
  import opened Names
  import opened Stack
  import opened Lookup
  import opened Fresh
  import opened Edit

  const EEXIST := 17
  const EISDIR := 21

  // what link_or_create_wh leaves: an empty regular file
  const MARK: Ent := Ent(REG, 0, false)

  class Union {
    var br: seq<Branch>
    var dirs: Dirs
    // how many lower calls have failed, and the error of the last of them
    var failed: nat
    var lastErr: int

    ghost predicate AtRest()
      reads this
    {
      Stack.AtRest(br, dirs)
    }

    ghost function View(): imap<Key, Obj>
      requires AtRest()
      reads this
    {
      Stack.View(br, dirs)
    }

    /** d has just been looked up, and names something that is not a directory. */
    ghost predicate FreshFile(d: Dentry)
      requires AtRest()
      reads this, d
    {
      Plain(d.key) && d.key.dir in dirs && FileInfo(br, dirs[d.key.dir], d.key, d.di)
    }

    /** d has just been looked up, and names a directory. */
    ghost predicate FreshDir(d: Dentry)
      requires AtRest()
      reads this, d
    {
      Plain(d.key) && d.key.dir in dirs && DirInfo(br, dirs[d.key.dir], d.key, d.di)
    }

    /** d has just been looked up, and nothing of its name is visible. */
    ghost predicate FreshNeg(d: Dentry)
      requires AtRest()
      reads this, d
    {
      Plain(d.key) && d.key.dir in dirs && NegInfo(br, dirs[d.key.dir], d.key, d.di)
    }

    /** The outcome of a lower call, counted. */
    method Fault() returns (err: int)
      modifies this`failed, this`lastErr
      ensures err <= 0 && failed == old(failed) + (if err == 0 then 0 else 1)
      ensures lastErr == if err == 0 then old(lastErr) else err
      ensures !FAULTS ==> err == 0
    {
      err := LowerFault();
      if err != 0 {
        failed := failed + 1;
        lastErr := err;
      }
    }

    /** A lower lookup on branch b, counted. */
    method Lkup(b: nat, k: Key) returns (err: int, slot: Slot)
      requires b < |br|
      modifies this`failed, this`lastErr
      ensures err <= 0 && failed == old(failed) + (if err == 0 then 0 else 1)
      ensures lastErr == if err == 0 then old(lastErr) else err
      ensures err == 0 ==> slot == if k in br[b].ents then Pos(br[b].ents[k]) else Neg
      ensures !FAULTS ==> err == 0
    {
      err, slot := LkupOne(br[b], k);
      if err != 0 {
        failed := failed + 1;
        lastErr := err;
      }
    }

    method VfsCreate(b: nat, k: Key, e: Ent) returns (err: int)
      requires b < |br|
      modifies this`br, this`failed, this`lastErr
      ensures err <= 0
      ensures if err == 0 then k !in old(br)[b].ents && br == Put(old(br), b, k, e) else br == old(br)
      ensures !FAULTS && k !in old(br)[b].ents ==> err == 0
      ensures old(failed) <= failed <= old(failed) + 1 && (err == 0 ==> failed == old(failed))
      ensures lastErr == if failed == old(failed) then old(lastErr) else err
      ensures failed == old(failed) && k !in old(br)[b].ents ==> err == 0
    {
      if k in br[b].ents {
        return -EEXIST;
      }
      err := Fault();
      if err == 0 {
        br := Put(br, b, k, e);
      }
    }

    /** A lower unlink refuses a directory. */
    method VfsUnlink(b: nat, k: Key) returns (err: int)
      requires b < |br|
      modifies this`br, this`failed, this`lastErr
      ensures err <= 0
      ensures if err == 0 then File(old(br)[b], k) && br == Del(old(br), b, k) else br == old(br)
      ensures !FAULTS ==> (err == 0 <==> File(old(br)[b], k)) && err != -EIO
      ensures old(failed) <= failed <= old(failed) + 1 && (err == 0 ==> failed == old(failed))
      ensures lastErr == if failed == old(failed) then old(lastErr) else err
      ensures failed == old(failed) && File(old(br)[b], k) ==> err == 0
    {
      if k !in br[b].ents {
        return -ENOENT;
      }
      if br[b].ents[k].typ.DIR? {
        return -EISDIR;
      }
      err := Fault();
      if err == 0 {
        br := Del(br, b, k);
      }
    }

    /** A lower directory k, whose entries are those of d, is removed if nothing is left in it, not even
        the opaque mark. */
    method VfsRmdir(b: nat, k: Key, d: Dir) returns (err: int)
      requires b < |br| && k in br[b].ents && br[b].ents[k].typ == DIR
      modifies this`br, this`failed, this`lastErr
      ensures err <= 0
      ensures if err == 0 then Bare(old(br)[b], d) && br == Del(old(br), b, k) else br == old(br)
      ensures !FAULTS ==> (err == 0 <==> Bare(old(br)[b], d) && !old(br)[b].ents[k].opq)
      ensures old(br)[b].ents[k].opq ==> err != 0
      ensures old(failed) <= failed <= old(failed) + 1 && (err == 0 ==> failed == old(failed))
      ensures lastErr == if failed == old(failed) then old(lastErr) else err
      ensures failed == old(failed) && Bare(old(br)[b], d) && !old(br)[b].ents[k].opq ==> err == 0
    {
      if br[b].ents[k].opq || exists x :: x in br[b].ents && x.dir == d {
        return -ENOTEMPTY;
      }
      err := Fault();
      if err == 0 {
        br := Del(br, b, k);
      }
    }

    /** Both names are links to one file. */
    predicate SameFile(s: Dentry, d: Dentry)
      reads this, s, d
    {
      && 0 <= s.di.bstart < |br| && 0 <= d.di.bstart < |br|
      && s.key in br[s.di.bstart].ents && d.key in br[d.di.bstart].ents
      && ObjOf(br[s.di.bstart].ents[s.key]) == ObjOf(br[d.di.bstart].ents[d.key])
    }

    /** A lower rename replaces what the target name held, and does nothing between two links to
        one file. */
    method VfsRename(b: nat, from: Key, to: Key) returns (err: int)
      requires b < |br| && from != to
      modifies this`br, this`failed, this`lastErr
      ensures err <= 0
      ensures err == 0 ==> from in old(br)[b].ents
      ensures br == if err == 0 && !Linked(old(br)[b], from, to)
                    then Del(Put(old(br), b, to, old(br)[b].ents[from]), b, from) else old(br)
      ensures !FAULTS && from in old(br)[b].ents ==> err == 0
      ensures old(failed) <= failed <= old(failed) + 1 && (err == 0 ==> failed == old(failed))
      ensures lastErr == if failed == old(failed) then old(lastErr) else err
      ensures failed == old(failed) && from in old(br)[b].ents ==> err == 0
    {
      if from !in br[b].ents {
        return -ENOENT;
      }
      if Linked(br[b], from, to) {
        return 0;
      }
      err := Fault();
      if err == 0 {
        br := Del(Put(br, b, to, br[b].ents[from]), b, from);
      }
    }

    /** Creates a whiteout of k, or finds it there. */
    method SimpleCreateWh(b: nat, k: Key) returns (err: int)
      requires b < |br|
      modifies this`br, this`failed, this`lastErr
      ensures err <= 0
      ensures err != 0 ==> br == old(br)
      ensures err == 0 ==> br == if Wh(k) in old(br)[b].ents then old(br) else Put(old(br), b, Wh(k), MARK)
      ensures !FAULTS ==> err == 0
      ensures old(failed) <= failed <= old(failed) + 1 && (err == 0 ==> failed == old(failed))
      ensures lastErr == if failed == old(failed) then old(lastErr) else err
      ensures failed == old(failed) ==> err == 0
    {
      var slot;
      err, slot := Lkup(b, Wh(k));
      if err == 0 && slot.Neg? {
        err := VfsCreate(b, Wh(k), MARK);
      }
    }

    /** cpup_dirs, as seen from one directory: on success branch b holds a lower directory for d. Its
        entry in its own parent there stands for the same object, and is not recorded in br. */
    method CpupDirs(d: Dir, b: nat) returns (err: int)
      requires d in dirs && b < |dirs[d].h|
      modifies this`dirs, this`failed, this`lastErr
      ensures err <= 0
      ensures dirs == if err == 0 then old(dirs)[d := WithDir(old(dirs)[d], b)] else old(dirs)
      ensures old(dirs)[d].H(b) != Null ==> err == 0
      ensures !FAULTS ==> err == 0
      ensures old(failed) <= failed <= old(failed) + 1 && (err == 0 ==> failed == old(failed))
      ensures lastErr == if failed == old(failed) then old(lastErr) else err
      ensures failed == old(failed) ==> err == 0
    {
      if dirs[d].H(b) != Null {
        assert dirs == dirs[d := WithDir(dirs[d], b)];
        return 0;
      }
      err := Fault();
      if err == 0 {
        dirs := dirs[d := WithDir(dirs[d], b)];
      }
    }

    /** The directory's first writable branch down to bend, preferring bend itself. */
    method FindRwParent(p: DInfo, bend: nat) returns (err: int)
      requires DirOk(|br|, p) && bend < |br|
      ensures err == RwParent(br, p, bend)
    {
      if p.H(bend) != Null && !br[bend].Rdonly() {
        return bend;
      }
      var bindex := p.bstart;
      while bindex <= bend
        invariant p.bstart <= bindex
        invariant bindex <= bend + 1 || bindex == p.bstart
        invariant FirstRw(br, p, p.bstart, bend) == FirstRw(br, p, bindex, bend)
      {
        if p.H(bindex) != Null && !br[bindex].Rdonly() {
          return bindex;
        }
        bindex := bindex + 1;
      }
      return -EROFS;
    }

    /** The nearest writable branch from bend upwards. */
    method FindRwBr(bend: nat) returns (err: int)
      requires bend < |br|
      ensures err == NearestRw(br, bend)
    {
      var bindex: int := bend;
      while bindex >= 0
        invariant bindex <= bend
        invariant NearestRw(br, bend) == if bindex < 0 then -EROFS else NearestRw(br, bindex)
        decreases bindex
      {
        if !br[bindex].Rdonly() {
          return bindex;
        }
        bindex := bindex - 1;
      }
      return -EROFS;
    }

    /** The branch to change when branch b is wanted: b itself if writable. */
    method TestRo(p: DInfo, b: nat) returns (err: int)
      requires DirOk(|br|, p) && b < |br|
      ensures err == Target(br, p, b)
    {
      err := b;
      if br[b].Rdonly() {
        err := FindRwParentBr(p, b);
      }
    }

    method FindRwParentBr(p: DInfo, bend: nat) returns (err: int)
      requires DirOk(|br|, p) && bend < |br|
      ensures err == WrBranch(br, p, bend)
    {
      err := FindRwParent(p, bend);
      if err >= 0 {
        return;
      }
      err := FindRwBr(bend);
    }
  }

  /** The error of a call in which one lower call failed is that call's. */
  predicate Same(before: nat, after: nat, err: int, lastErr: int) {
    err != 0 && after == before + 1 ==> err == lastErr
  }

  /** Nothing failed, so the last error is still the same. */
  predicate Calm(before: nat, after: nat, was: int, lastErr: int) {
    after == before ==> lastErr == was
  }

  predicate File(br: Branch, k: Key) {
    k in br.ents && br.ents[k].typ != DIR
  }

  /** The branch holds no entry of directory d. */
  predicate Bare(br: Branch, d: Dir) {
    forall x :: x in br.ents ==> x.dir != d
  }

  predicate Linked(br: Branch, k: Key, l: Key) {
    k in br.ents && l in br.ents && ObjOf(br.ents[k]) == ObjOf(br.ents[l])
  }

  /** The first writable branch in b..bend that holds the directory. */
  function FirstRw(br: seq<Branch>, p: DInfo, b: nat, bend: nat): int
    requires |br| == |p.h| && bend < |br|
    decreases bend + 1 - b
  {
    if bend < b then -EROFS
    else if p.H(b) != Null && !br[b].Rdonly() then b
    else FirstRw(br, p, b + 1, bend)
  }

  function RwParent(br: seq<Branch>, p: DInfo, bend: nat): int
    requires |br| == |p.h| && bend < |br| && p.bstart >= 0
  {
    if p.H(bend) != Null && !br[bend].Rdonly() then bend else FirstRw(br, p, p.bstart, bend)
  }

  function NearestRw(br: seq<Branch>, b: nat): int
    requires b < |br|
  {
    if !br[b].Rdonly() then b
    else if b == 0 then -EROFS
    else NearestRw(br, b - 1)
  }

  /** find_rw_parent_br. */
  function WrBranch(br: seq<Branch>, p: DInfo, bend: nat): int
    requires |br| == |p.h| && bend < |br| && p.bstart >= 0
  {
    var r := RwParent(br, p, bend);
    if r >= 0 then r else NearestRw(br, bend)
  }

  /** The branch a change wanted on branch b is made on (test_ro, then find_rw_parent_br). */
  function Target(br: seq<Branch>, p: DInfo, b: nat): int
    requires |br| == |p.h| && b < |br| && p.bstart >= 0
  {
    if br[b].Rdonly() then WrBranch(br, p, b) else b
  }

  lemma {:induction false} FirstRwFacts(br: seq<Branch>, p: DInfo, b: nat, bend: nat)
    requires |br| == |p.h| && bend < |br|
    ensures var r := FirstRw(br, p, b, bend);
            if r >= 0 then b <= r <= bend && p.H(r) != Null && !br[r].Rdonly()
            else r == -EROFS && forall j :: b <= j <= bend && p.H(j) != Null ==> br[j].Rdonly()
    decreases bend + 1 - b
  {
    if b <= bend && !(p.H(b) != Null && !br[b].Rdonly()) {
      FirstRwFacts(br, p, b + 1, bend);
    }
  }

  lemma {:induction false} NearestRwFacts(br: seq<Branch>, b: nat)
    requires b < |br|
    ensures var r := NearestRw(br, b);
            if r >= 0 then r <= b && !br[r].Rdonly() && forall j :: r < j <= b ==> br[j].Rdonly()
            else r == -EROFS && forall j :: 0 <= j <= b ==> br[j].Rdonly()
  {
    if br[b].Rdonly() && b > 0 {
      NearestRwFacts(br, b - 1);
    }
  }

  /** find_rw_parent: the wanted branch if it is writable and holds the directory, else the first such
      branch from the top down to it. */
  lemma {:induction false} RwParentFacts(br: seq<Branch>, p: DInfo, bend: nat)
    requires DirOk(|br|, p) && bend < |br|
    ensures var r := RwParent(br, p, bend);
            if p.On(bend) && !br[bend].Rdonly() then r == bend
            else if exists j :: 0 <= j <= bend && p.On(j) && !br[j].Rdonly() then
              0 <= r <= bend && p.On(r) && !br[r].Rdonly() && forall j :: 0 <= j < r && p.On(j) ==> br[j].Rdonly()
            else r == -EROFS
  {
    FirstRwFacts(br, p, p.bstart, bend);
    FirstRwLeast(br, p, p.bstart, bend);
  }

  lemma {:induction false} FirstRwLeast(br: seq<Branch>, p: DInfo, b: nat, bend: nat)
    requires |br| == |p.h| && bend < |br|
    ensures var r := FirstRw(br, p, b, bend); forall j :: b <= j < r && j <= bend && p.H(j) != Null ==> br[j].Rdonly()
    decreases bend + 1 - b
  {
    if b <= bend && !(p.H(b) != Null && !br[b].Rdonly()) {
      FirstRwLeast(br, p, b + 1, bend);
    }
  }

  /** Which branch is chosen: the wanted one if it can be written; if not, the topmost writable
      branch, down to it, that holds the directory; if there is none, the nearest writable one above. */
  lemma {:induction false} TargetChoice(br: seq<Branch>, p: DInfo, b: nat)
    requires DirOk(|br|, p) && b < |br|
    ensures var t := Target(br, p, b);
            if !br[b].Rdonly() then t == b
            else if exists j :: 0 <= j <= b && p.On(j) && !br[j].Rdonly() then
              0 <= t <= b && p.On(t) && !br[t].Rdonly() && forall j :: 0 <= j < t && p.On(j) ==> br[j].Rdonly()
            else if exists j :: 0 <= j <= b && !br[j].Rdonly() then
              0 <= t <= b && !br[t].Rdonly() && forall j :: t < j <= b ==> br[j].Rdonly()
            else t == -EROFS
  {
    RwParentFacts(br, p, b);
    NearestRwFacts(br, b);
  }

  /** The chosen branch is writable and at or above the wanted one; the choice fails,
      with EROFS, exactly when no branch from the top down to the wanted one is writable. */
  lemma {:induction false} TargetFacts(br: seq<Branch>, p: DInfo, b: nat)
    requires DirOk(|br|, p) && b < |br|
    ensures var t := Target(br, p, b);
            && (t >= 0 ==> t <= b && !br[t].Rdonly())
            && (t < 0 ==> t == -EROFS)
            && (t < 0 <==> forall j :: 0 <= j <= b ==> br[j].Rdonly())
            && (!br[b].Rdonly() ==> t == b)
  {
    FirstRwFacts(br, p, p.bstart, b);
    NearestRwFacts(br, b);
  }
}
