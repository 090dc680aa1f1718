/** The branch stack, what an aufs dentry caches about it, and the merged view. */
module Stack {
  import opened Names

  datatype Perm = RW | RO | RR | RWNoLinkWH | ROWH | RRWH

  datatype FType = REG | DIR | LNK | CHR | BLK | FIFO | SOCK

  /** A lower entry. file stands for the object's identity, which a copy keeps, whatever becomes of
      its bytes; opq says that a lower directory contains the opaque mark. */
  datatype Ent = Ent(typ: FType, file: nat, opq: bool)

  /** One branch: its permission, whether its own mount is read-only, and its entries. */
  datatype Branch = Branch(perm: Perm, roMount: bool, ents: map<Key, Ent>) {
    predicate Writable() {
      perm.RW? || perm.RWNoLinkWH?
    }

    predicate Whable() {
      perm.RW? || perm.ROWH? || perm.RRWH?
    }

    predicate Rdonly() {
      roMount || !Writable()
    }
  }

  /** A lower dentry slot: unset, set and negative, or set and positive. */
  datatype Slot = Null | Neg | Pos(ent: Ent)

  /** The cached state of an aufs dentry (aufs_dinfo). */
  datatype DInfo = DInfo(bstart: int, bend: int, bwh: int, bdiropq: int, h: seq<Slot>) {
    function H(b: nat): Slot
      requires b < |h|
    {
      if bstart < 0 || b < bstart then Null else h[b]
    }

    function DbTail(): int {
      if 0 <= bend && bwh == 0 then 0
      else if 0 <= bend && 0 < bwh < bend then bwh - 1
      else bend
    }

    function DbTailDir(): int {
      var tail := DbTail();
      if 0 <= tail && 0 <= bdiropq < tail then bdiropq else tail
    }

    /** Branch b contributes a lower directory to this aufs directory. */
    predicate On(b: nat)
      requires b < |h|
    {
      b <= DbTailDir() && H(b).Pos? && H(b).ent.typ.DIR?
    }
  }

  /** Which permissions let a branch be written, and which let it hold whiteouts. */
  lemma {:induction false} Perms(br: Branch)
    ensures br.Rdonly() <==> br.roMount || br.perm in {RO, RR, ROWH, RRWH}
    ensures br.Whable() <==> br.perm in {RW, ROWH, RRWH}
  {
  }

  /** Where the branches of a directory end: above a whiteout that was noted inside its range (on
      branch 0 with it), at an opaque directory, else at its last branch; nothing counts before its
      first. */
  lemma {:induction false} Tails(p: DInfo)
    requires 0 <= p.bstart && p.bend < |p.h|
    ensures p.bwh == 0 ==> forall b: nat :: 0 < b < |p.h| ==> !p.On(b)
    ensures 0 < p.bwh < p.bend ==> forall b: nat :: p.bwh <= b < |p.h| ==> !p.On(b)
    ensures 0 <= p.bdiropq ==> forall b: nat :: p.bdiropq < b < |p.h| ==> !p.On(b)
    ensures forall b: nat :: b < |p.h| && (b < p.bstart || p.bend < b) ==> !p.On(b)
    ensures (p.bwh == -1 || p.bend <= p.bwh) && (p.bdiropq == -1 || p.bend <= p.bdiropq) && p.bend != 0 ==>
              forall b: nat :: p.bstart <= b <= p.bend ==> (p.On(b) <==> p.h[b].Pos? && p.h[b].ent.typ == DIR)
  {
  }

  function Blank(n: nat): DInfo {
    DInfo(-1, -1, -1, -1, seq(n, _ => Null))
  }

  /** What branch b says about k: nothing, "stop here", or an entry. */
  datatype Cell = Skip | Stop | Hit(ent: Ent)

  predicate Whited(br: Branch, k: Key) {
    br.Whable() && Wh(k) in br.ents
  }

  function CellAt(br: seq<Branch>, p: DInfo, k: Key, b: nat): Cell
    requires b < |br| == |p.h|
  {
    if !p.On(b) then Skip
    else if Whited(br[b], k) then Stop
    else if k in br[b].ents then Hit(br[b].ents[k])
    else Skip
  }

  /** The entry that k denotes when only the branches from b downwards are considered. */
  function Vis(br: seq<Branch>, p: DInfo, k: Key, b: nat): Option<Ent>
    requires b <= |br| == |p.h|
    decreases |br| - b
  {
    if b == |br| then None
    else match CellAt(br, p, k, b)
      case Skip => Vis(br, p, k, b + 1)
      case Stop => None
      case Hit(e) => Some(e)
  }

  /** Nothing about k on the branches lo, ..., hi-1. */
  ghost predicate Clear(br: seq<Branch>, p: DInfo, k: Key, lo: nat, hi: nat)
    requires hi <= |br| == |p.h|
  {
    forall j :: lo <= j < hi ==> CellAt(br, p, k, j) == Skip
  }

  lemma {:induction false} VisSkip(br: seq<Branch>, p: DInfo, k: Key, lo: nat, hi: nat)
    requires lo <= hi <= |br| == |p.h|
    requires Clear(br, p, k, lo, hi)
    ensures Vis(br, p, k, lo) == Vis(br, p, k, hi)
    decreases hi - lo
  {
    if lo < hi {
      assert CellAt(br, p, k, lo) == Skip;
      VisSkip(br, p, k, lo + 1, hi);
    }
  }

  lemma {:induction false} VisSame(br: seq<Branch>, p: DInfo, br': seq<Branch>, p': DInfo, k: Key, b: nat)
    requires b <= |br| == |p.h| == |br'| == |p'.h|
    requires forall j :: b <= j < |br| ==> CellAt(br, p, k, j) == CellAt(br', p', k, j)
    ensures Vis(br, p, k, b) == Vis(br', p', k, b)
    decreases |br| - b
  {
    if b < |br| {
      assert CellAt(br, p, k, b) == CellAt(br', p', k, b);
      VisSame(br, p, br', p', k, b + 1);
    }
  }

  /** The object behind a visible name: an opaque mark is not visible. */
  datatype Obj = Obj(typ: FType, file: nat)

  function ObjOf(e: Ent): Obj {
    Obj(e.typ, e.file)
  }

  /** The aufs directories whose dentries are cached, by directory. */
  type Dirs = map<Dir, DInfo>

  ghost predicate DirsOk(n: nat, dirs: Dirs) {
    forall d :: d in dirs ==> DirOk(n, dirs[d])
  }

  ghost predicate DirOk(n: nat, p: DInfo) {
    && |p.h| == n
    && 0 <= p.bstart <= p.DbTailDir() < n
    && p.On(p.bstart)
    && forall j :: 0 <= j < n ==> (p.h[j] != Null <==> p.On(j))
  }

  /** What k denotes in the union, if anything. */
  ghost function Denotes(br: seq<Branch>, dirs: Dirs, k: Key): Option<Obj>
    requires DirsOk(|br|, dirs)
  {
    if Plain(k) && k.dir in dirs then
      match Vis(br, dirs[k.dir], k, 0)
      case None => None
      case Some(e) => Some(ObjOf(e))
    else None
  }

  /** The merged view: every plain name of every directory that is visible. */
  ghost function View(br: seq<Branch>, dirs: Dirs): imap<Key, Obj>
    requires DirsOk(|br|, dirs)
  {
    imap k: Key | Denotes(br, dirs, k).Some? :: Denotes(br, dirs, k).value
  }

  /** No branch holds a name together with its whiteout. */
  ghost predicate NeverBoth(br: Branch) {
    forall k :: Plain(k) && k in br.ents ==> Wh(k) !in br.ents
  }

  /** Whiteouts are regular files, and only branches that can hold them do. */
  ghost predicate MarksOk(br: Branch) {
    forall k :: Plain(k) && Wh(k) in br.ents ==> br.Whable() && br.ents[Wh(k)].typ.REG?
  }

  /** A branch at or above a directory's tail without a lower directory for it holds no names of it. */
  ghost predicate NoOrphans(br: Branch, dirs: Dirs, b: nat)
    requires forall d :: d in dirs ==> b < |dirs[d].h|
  {
    forall k :: k in br.ents && k.dir in dirs && b <= dirs[k.dir].DbTailDir() ==> dirs[k.dir].On(b)
  }

  /** The state of the namespace at rest. */
  ghost predicate AtRest(br: seq<Branch>, dirs: Dirs) {
    && DirsOk(|br|, dirs)
    && forall b :: 0 <= b < |br| ==> NeverBoth(br[b]) && MarksOk(br[b]) && NoOrphans(br[b], dirs, b)
  }
}
