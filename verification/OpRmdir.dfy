/** rmdir(2), in i_op_del.c and whout.c: a whiteout where one is judged necessary, and the lower
    directory moved out of the way and emptied. */
module OpRmdir {
  import opened Names
  import opened Stack
  import opened Lookup
  import opened Fresh
  import opened Edit
  import opened Readdir
  import opened Emptiness
  import opened OpDel
  import opened Util
  import OpAdd
  import U = Union

  const ENAMETOOLONG := 36

  function Digit(n: nat): char {
    "0123456789"[n % 10]
  }

  /** The temporary name of k: prefixed twice, with four digits behind it. */
  function Tmp(k: Key, cnt: Byte): (r: Key)
    ensures r.dir == k.dir && Doubly(r.name)
  {
    var n := cnt as nat;
    Key(k.dir, WH_PFX + WH_PFX + k.name + "." + [Digit(n / 1000), Digit(n / 100), Digit(n / 10), Digit(n)])
  }

  predicate Doubly(name: string) {
    WH_PFX + WH_PFX <= name
  }

  /** Such a name is neither plain nor the whiteout of a plain one. */
  lemma {:induction false} DoublyApart(k: Key)
    requires Doubly(k.name)
    ensures !Plain(k) && forall x :: Plain(x) ==> Wh(x) != k
  {
    assert k.name[..4] == WH_PFX && k.name[4..8] == WH_PFX;
    forall x | Wh(x) == k ensures !Plain(x) {
      assert x.name == k.name[4..];
      assert x.name[..4] == WH_PFX;
    }
  }

  function After(cnt: Byte, i: nat): Byte {
    ((cnt as nat + i) % 256) as Byte
  }

  lemma {:induction false} AfterNext(cnt: Byte, i: nat)
    ensures After(cnt, 0) == cnt && After(After(cnt, i), 1) == After(cnt, i + 1)
  {
  }

  lemma {:induction false} AfterDiffer(cnt: Byte, i: nat, j: nat)
    requires i < j < 256
    ensures After(cnt, i) != After(cnt, j)
  {
  }

  lemma {:induction false} DigitIs(a: nat, b: nat)
    ensures Digit(a) == Digit(b) ==> a % 10 == b % 10
  {
  }

  lemma {:induction false} DigitsDiffer(a: nat, b: nat)
    requires a < 256 && b < 256 && Digit(a) == Digit(b) && Digit(a / 10) == Digit(b / 10) && Digit(a / 100) == Digit(b / 100)
    ensures a == b
  {
    hide Digit;
    DigitIs(a, b);
    DigitIs(a / 10, b / 10);
    DigitIs(a / 100, b / 100);
    Decimal(a, a / 10, a / 100);
    Decimal(b, b / 10, b / 100);
  }

  lemma {:induction false} Decimal(a: nat, a1: nat, a2: nat)
    requires a < 256 && a1 == a / 10 && a2 == a / 100
    ensures a == 100 * (a2 % 10) + 10 * (a1 % 10) + a % 10
  {
  }

  /** The tries have different names. */
  lemma {:induction false} TriesDiffer(k: Key, cnt: Byte, i: nat, j: nat)
    requires i < j < 256
    ensures Tmp(k, After(cnt, i)) != Tmp(k, After(cnt, j))
  {
    hide After;
    AfterDiffer(cnt, i, j);
    if Tmp(k, After(cnt, i)) == Tmp(k, After(cnt, j)) {
      TmpDigits(k, After(cnt, i));
      TmpDigits(k, After(cnt, j));
      DigitsDiffer(After(cnt, i) as nat, After(cnt, j) as nat);
    }
  }

  lemma {:induction false} TmpDigits(k: Key, c: Byte)
    ensures var s, n := Tmp(k, c).name, |k.name| + |WH_PFX| + |WH_PFX| + 5;
            && |s| == n && s[n - 1] == Digit(c as nat) && s[n - 2] == Digit(c as nat / 10) && s[n - 3] == Digit(c as nat / 100)
  {
    hide Digit;
  }

  /** One of the next three temporary names is free, and short enough for the branch. */
  predicate Roomy(br: Branch, k: Key, cnt: Byte) {
    |Tmp(k, cnt).name| <= NAME_MAX && exists i :: 0 <= i < 3 && Tmp(k, After(cnt, i)) !in br.ents
  }

  /** Temporary name i is the first that is free. */
  predicate FirstRoom(br: Branch, k: Key, cnt: Byte, i: nat) {
    Tmp(k, After(cnt, i)) !in br.ents && forall j :: 0 <= j < i ==> Tmp(k, After(cnt, j)) in br.ents
  }

  /** Room there is when the name of the directory is short enough for thirteen characters more, and
      not all of the next three temporary names are taken. */
  lemma {:induction false} RoomyIs(br: Branch, k: Key, cnt: Byte)
    ensures Roomy(br, k, cnt) <==>
              && |k.name| + 13 <= NAME_MAX
              && !(Tmp(k, After(cnt, 0)) in br.ents && Tmp(k, After(cnt, 1)) in br.ents && Tmp(k, After(cnt, 2)) in br.ents)
  {
    hide After, Digit;
  }

  /** lkup_whtmp: a temporary name that the branch does not hold; cnt counts for all of them. When
      three are taken the kernel reports a bug; the error is what follows where it goes on. */
  method LkupWhtmp(u: U.Union, t: nat, k: Key, cnt0: Byte) returns (err: int, tmp: Key, cnt: Byte)
    requires t < |u.br|
    modifies u`failed, u`lastErr
    ensures err <= 0 && old(u.failed) <= u.failed && (err == 0 ==> u.failed == old(u.failed))
    ensures Roomy(u.br[t], k, cnt0) && err != 0 ==> u.failed > old(u.failed)
    ensures U.Same(old(u.failed), u.failed, err, u.lastErr) && U.Calm(old(u.failed), u.failed, old(u.lastErr), u.lastErr)
    ensures tmp.dir == k.dir && Doubly(tmp.name)
    ensures err == 0 ==> exists i :: 0 <= i < 3 && FirstRoom(u.br[t], k, cnt0, i) && tmp == Tmp(k, After(cnt0, i)) && cnt == After(cnt0, i + 1)
    ensures !FAULTS ==> err != -EIO && (err == 0 <==> Roomy(u.br[t], k, cnt0))
  {
    hide Tmp, Doubly, After;
    AfterNext(cnt0, 0);
    cnt := cnt0;
    tmp := Tmp(k, cnt);
    // the lower file system refuses it
    if |tmp.name| > NAME_MAX {
      return -ENAMETOOLONG, tmp, cnt;
    }
    for i := 0 to 3
      invariant cnt == After(cnt0, i) && tmp.dir == k.dir && Doubly(tmp.name)
      invariant forall j :: 0 <= j < i ==> Tmp(k, After(cnt0, j)) in u.br[t].ents
      invariant u.failed == old(u.failed) && u.lastErr == old(u.lastErr)
    {
      tmp := Tmp(k, cnt);
      AfterNext(cnt0, i);
      cnt := After(cnt, 1);
      var slot;
      err, slot := u.Lkup(t, tmp);
      if err != 0 || slot.Neg? {
        assert err == 0 ==> FirstRoom(u.br[t], k, cnt0, i);
        return;
      }
    }
    err := -U.EEXIST;
  }

  /** The entries once k, whose entries are those of f, stands under the name tmp, and its entries
      are those of g, which nobody knows. */
  function Away(ents: map<Key, Ent>, k: Key, tmp: Key, f: Dir, g: Dir): map<Key, Ent>
    requires k in ents
  {
    (map x | x in ents && x != k && x.dir != f :: ents[x])
    + (map x | x in (set y | y in ents && y.dir == f :: Key(g, y.name)) :: ents[Key(f, x.name)])
    + map[tmp := ents[k]]
  }

  /** What a removed directory may leave: entries of g, which it had, and temporary names. */
  predicate Trash(x: Key, k: Key, g: Dir) {
    x.dir == g || (x.dir == k.dir && Doubly(x.name))
  }

  /** rename_whtmp: the lower directory of k, f, is moved out of the way. */
  method RenameWhtmp(u: U.Union, t: nat, k: Key, f: Dir, g: Dir, cnt0: Byte) returns (err: int, tmp: Key, cnt: Byte)
    requires t < |u.br| && k in u.br[t].ents
    modifies u`br, u`failed, u`lastErr
    ensures err <= 0 && tmp.dir == k.dir && Doubly(tmp.name)
    ensures old(u.failed) <= u.failed && (Roomy(old(u.br)[t], k, cnt0) && err != 0 ==> u.failed > old(u.failed))
    ensures U.Same(old(u.failed), u.failed, err, u.lastErr) && U.Calm(old(u.failed), u.failed, old(u.lastErr), u.lastErr)
    ensures err == 0 ==> u.failed == old(u.failed)
    ensures err != 0 ==> u.br == old(u.br)
    ensures err == 0 ==> tmp !in old(u.br)[t].ents
                         && u.br == old(u.br)[t := old(u.br)[t].(ents := Away(old(u.br)[t].ents, k, tmp, f, g))]
    ensures !FAULTS ==> err != -EIO && (err == 0 <==> Roomy(old(u.br)[t], k, cnt0))
  {
    err, tmp, cnt := LkupWhtmp(u, t, k, cnt0);
    if err == 0 {
      err := u.Fault();
    }
    if err == 0 {
      u.br := u.br[t := u.br[t].(ents := Away(u.br[t].ents, k, tmp, f, g))];
    }
  }

  /** rmdir_whtmp: the whiteouts in the directory moved away go first, the opaque mark with them, then
      the directory. A directory among them ends it, and everything stays. */
  method RmdirWhtmp(u: U.Union, t: nat, tmp: Key, g: Dir, whs: seq<WhEnt>) returns (err: int)
    requires t < |u.br| && tmp in u.br[t].ents && u.br[t].ents[tmp].typ == DIR && tmp.dir != g
    modifies u`br, u`failed, u`lastErr
    ensures err <= 0 && OnlyAt(old(u.br), u.br, t) && old(u.failed) <= u.failed
    ensures u.br[t].ents.Keys <= old(u.br)[t].ents.Keys
    ensures forall x :: x in u.br[t].ents && x != tmp ==> u.br[t].ents[x] == old(u.br)[t].ents[x]
    ensures forall x :: x in old(u.br)[t].ents && x != tmp && x.dir != g ==> x in u.br[t].ents
    ensures if err == 0 then tmp !in u.br[t].ents && U.Bare(u.br[t], g) else tmp in u.br[t].ents
    ensures !FAULTS && AllNoted(old(u.br)[t].ents, t, g, whs) ==> (err == 0 <==> NoDirs(old(u.br)[t].ents, g))
  {
    ghost var ents := u.br[t].ents;
    err := DelWhChildren(u, t, g, whs);
    if err == 0 {
      if AllNoted(ents, t, g, whs) {
        forall x | x in ents && x.dir == g ensures x !in u.br[t].ents {
          var i :| 0 <= i < |whs| && whs[i] == WhEnt(Stripped(x.name), t);
          WhNameOfStripped(x.name);
          assert Key(g, WhName(whs[i].name)) == x;
        }
      }
      if u.br[t].ents[tmp].opq {
        err := OpAdd.SetDiropq(u, t, tmp, false);
        if err != 0 {
          return;
        }
      }
      err := u.VfsRmdir(t, tmp, g);
    }
  }

  /** The entries without k and without those of directory f. */
  function Cut(ents: map<Key, Ent>, k: Key, f: Dir): map<Key, Ent> {
    map x | x in ents && x != k && x.dir != f :: ents[x]
  }

  /** Nothing differs but what Trash may be; and what is left as entries of g were those of f in was. */
  ghost predicate UpTo(x: map<Key, Ent>, y: map<Key, Ent>, k: Key, was: map<Key, Ent>, f: Dir, g: Dir) {
    && (forall i :: i in x && !Trash(i, k, g) ==> i in y && y[i] == x[i])
    && (forall i :: i in y && !Trash(i, k, g) ==> i in x)
    && (forall i :: i in y && i.dir == g ==> Key(f, i.name) in was && was[Key(f, i.name)] == y[i])
  }

  lemma {:induction false} AwayFacts(ents: map<Key, Ent>, k: Key, tmp: Key, f: Dir, g: Dir)
    requires k in ents && tmp !in ents && tmp.dir == k.dir && Doubly(tmp.name) && k.dir != f && k.dir != g && f != g
    requires forall x :: x in ents ==> x.dir != g
    ensures NoDirs(Away(ents, k, tmp, f, g), g) <==> NoDirs(ents, f)
    ensures var away := Away(ents, k, tmp, f, g);
            && UpTo(Cut(ents, k, f), away, k, ents, f, g) && tmp in away
            && (forall x :: x in Cut(ents, k, f) ==> x in away && away[x] == Cut(ents, k, f)[x] && x != tmp && x.dir != g)
            && away[tmp] == ents[k] && tmp !in Cut(ents, k, f)
            && (forall n :: Key(f, n) in ents ==> Key(g, n) in away && away[Key(g, n)] == ents[Key(f, n)])
            && (forall x :: x in away && x != tmp && x.dir != g ==> x in Cut(ents, k, f))
            && (forall x :: x in away && x.dir == g ==> Key(f, x.name) in ents)
  {
    hide Doubly;
  }

  /** What is left once some of it has been removed. */
  lemma {:induction false} Swept(ents: map<Key, Ent>, ents': map<Key, Ent>, k: Key, tmp: Key, f: Dir, g: Dir)
    requires k in ents && tmp !in ents && tmp.dir == k.dir && Doubly(tmp.name) && k.dir != f && k.dir != g && f != g
    requires forall x :: x in ents ==> x.dir != g
    requires ents'.Keys <= Away(ents, k, tmp, f, g).Keys
    requires forall x :: x in ents' && x != tmp ==> ents'[x] == Away(ents, k, tmp, f, g)[x]
    requires forall x :: x in Away(ents, k, tmp, f, g) && x != tmp && x.dir != g ==> x in ents'
    ensures UpTo(Cut(ents, k, f), ents', k, ents, f, g)
    ensures tmp !in ents' && (forall x :: x in ents' ==> x.dir != g) ==> ents' == Cut(ents, k, f)
  {
    hide Doubly, Away, Cut;
    AwayFacts(ents, k, tmp, f, g);
    var away, cut := Away(ents, k, tmp, f, g), Cut(ents, k, f);
    if tmp !in ents' && forall x :: x in ents' ==> x.dir != g {
      forall x ensures x in ents' <==> x in cut {
        assert x in ents' ==> x in away;
      }
    }
  }

  /** renwh_and_rmdir: later means that emptying the directory is left to a work queue. Its
      failure is ignored. */
  method RenwhAndRmdir(u: U.Union, t: nat, k: Key, f: Dir, g: Dir, whs: seq<WhEnt>, later: bool, cnt0: Byte)
    returns (err: int, cnt: Byte)
    requires t < |u.br| && k in u.br[t].ents && u.br[t].ents[k].typ == DIR && k.dir != g && k.dir != f && f != g
    requires U.Bare(u.br[t], g)
    modifies u`br, u`failed, u`lastErr
    ensures err <= 0 && OnlyAt(old(u.br), u.br, t)
    ensures old(u.failed) <= u.failed && (Roomy(old(u.br)[t], k, cnt0) && err != 0 ==> u.failed > old(u.failed))
    ensures U.Same(old(u.failed), u.failed, err, u.lastErr) && (err != 0 ==> U.Calm(old(u.failed), u.failed, old(u.lastErr), u.lastErr))
    ensures err != 0 ==> u.br == old(u.br)
    ensures err == 0 ==> UpTo(Cut(old(u.br)[t].ents, k, f), u.br[t].ents, k, old(u.br)[t].ents, f, g)
    // what is put off is all there still
    ensures err == 0 && later ==> forall n :: Key(f, n) in old(u.br)[t].ents ==>
                                    Key(g, n) in u.br[t].ents && u.br[t].ents[Key(g, n)] == old(u.br)[t].ents[Key(f, n)]
    ensures !FAULTS ==> err != -EIO && (err == 0 <==> Roomy(old(u.br)[t], k, cnt0))
    ensures !FAULTS && err == 0 && AllNoted(old(u.br)[t].ents, t, f, whs) ==>
              (u.br[t].ents == Cut(old(u.br)[t].ents, k, f) <==> !later && NoDirs(old(u.br)[t].ents, f))
  {
    hide Roomy, Doubly, Away, Cut, AllNoted, UpTo;
    ghost var ents0 := u.br[t].ents;
    var tmp;
    err, tmp, cnt := RenameWhtmp(u, t, k, f, g, cnt0);
    if err != 0 {
      return;
    }
    AwayFacts(ents0, k, tmp, f, g);
    if !later {
      ghost var ents := u.br[t].ents;
      if AllNoted(ents0, t, f, whs) {
        NotedAway(ents0, ents, t, f, g, whs);
      }
      var e := RmdirWhtmp(u, t, tmp, g, whs);
    }
    Swept(ents0, u.br[t].ents, k, tmp, f, g);
  }

  lemma {:induction false} NotedAway(ents: map<Key, Ent>, away: map<Key, Ent>, t: nat, f: Dir, g: Dir, whs: seq<WhEnt>)
    requires AllNoted(ents, t, f, whs) && forall x :: x in away && x.dir == g ==> Key(f, x.name) in ents
    ensures AllNoted(away, t, g, whs)
  {
    forall x | x in away && x.dir == g ensures Mark(x.name) && WhEnt(Stripped(x.name), t) in whs {
      assert Key(f, x.name) in ents;
    }
  }

  /** The stack after the directory f, known as k and first held by branch b0, has been removed by
      way of branch t. */
  function Removed(br: seq<Branch>, k: Key, f: Dir, b0: nat, t: nat, made: bool): seq<Branch>
    requires b0 < |br| && t < |br|
  {
    var x := if made then Put(br, t, Wh(k), U.MARK) else br;
    if t == b0 then x[t := x[t].(ents := Cut(x[t].ents, k, f))] else x
  }

  /** The same, but for trash on branch t. */
  ghost predicate Left(br: seq<Branch>, br': seq<Branch>, k: Key, f: Dir, g: Dir, b0: nat, t: nat, made: bool)
    requires b0 < |br| && t < |br|
  {
    OnlyAt(br, br', t) && UpTo(Removed(br, k, f, b0, t, made)[t].ents, br'[t].ents, k, br[t].ents, f, g)
  }

  lemma {:induction false} RoomyStill(br: Branch, k: Key, cnt: Byte, e: Ent)
    requires Plain(k)
    ensures Roomy(br.(ents := br.ents[Wh(k) := e]), k, cnt) <==> Roomy(br, k, cnt)
  {
    hide Tmp;
    forall i | 0 <= i < 3 ensures Tmp(k, After(cnt, i)) != Wh(k) {
      DoublyApart(Tmp(k, After(cnt, i)));
    }
  }

  /** The second half: with the whiteout made, if it was, the lower directory goes. */
  method Finish(u: U.Union, t: nat, b0: nat, k: Key, f: Dir, g: Dir, whs: seq<WhEnt>, need: bool, later: bool, cnt0: Byte,
                ghost br0: seq<Branch>)
    returns (err: int, cnt: Byte)
    requires t <= b0 < |br0| && u.br == (if need then Put(br0, t, Wh(k), U.MARK) else br0)
    requires Plain(k) && k in br0[b0].ents && br0[b0].ents[k].typ == DIR && Wh(k) !in br0[t].ents
    requires k.dir != g && k.dir != f && f != g && U.Bare(br0[t], g)
    modifies u`br, u`failed, u`lastErr
    ensures err <= 0 && OnlyAt(br0, u.br, t)
    ensures err == 0 ==> Left(br0, u.br, k, f, g, b0, t, need)
    ensures err != 0 && err != -EIO ==> u.br == br0
    ensures old(u.failed) <= u.failed
    ensures (t == b0 ==> Roomy(br0[t], k, cnt0)) && err != 0 && u.failed <= old(u.failed) + 1 ==>
              u.br == br0 && U.Same(old(u.failed), u.failed, err, u.lastErr)
    ensures !FAULTS ==> err != -EIO && (err == 0 <==> (t == b0 ==> Roomy(br0[t], k, cnt0)))
    ensures !FAULTS && err == 0 && (t == b0 ==> AllNoted(br0[t].ents, t, f, whs)) ==>
              (u.br == Removed(br0, k, f, b0, t, need) <==> t != b0 || (!later && NoDirs(br0[t].ents, f)))
  {
    hide Roomy, Cut, Plain;
    err, cnt := 0, cnt0;
    RoomyStill(br0[t], k, cnt0, U.MARK);
    if t == b0 {
      err, cnt := RenwhAndRmdir(u, t, k, f, g, whs, later, cnt0);
    }
    if err != 0 && need {
      PutDel(br0, t, Wh(k), U.MARK);
      err := DoRevert(u, t, k, err);
    }
  }

  /** rmdir(2): the directory d, whose own entries are those of f; s is how the branches list
      them. RmdirOutcome says what the state it leaves means. */
  method AufsRmdir(u: U.Union, d: Dentry, f: Dir, g: Dir, s: seq<seq<string>>, later: bool, cnt0: Byte)
    returns (err: int, cnt: Byte)
    requires u.AtRest() && u.FreshDir(d) && f != d.key.dir && g != f && g != d.key.dir
    requires forall b, x :: 0 <= b < |u.br| && x in u.br[b].ents ==> x.dir != g
    requires ReadsAll(u.br, d.di, f, s) && Apart(d.di, s)
    modifies u, d
    ensures err <= 0
    ensures var t := U.Target(old(u.br), old(u.dirs)[d.key.dir], old(d.di.bstart));
            if t < 0 then err != 0 && u.br == old(u.br) && u.dirs == old(u.dirs)
            else t <= old(d.di.bstart) && OnlyAt(old(u.br), u.br, t) && Grown(old(u.dirs), u.dirs, d.key.dir, t)
    ensures err == 0 ==>
              var k, b0, p := d.key, old(d.di.bstart), old(u.dirs)[d.key.dir];
              var t := U.Target(old(u.br), p, b0);
              && EmptyListing(old(d.di), s)
              && t >= 0 && Left(old(u.br), u.br, k, f, g, b0, t, Judged(old(u.br), p, k, old(d.di), t, true))
              && u.dirs == old(u.dirs)[k.dir := WithDir(p, t)]
    ensures err != 0 && err != -EIO ==> u.br == old(u.br)
    // so does any at all when no more than one lower call failed, a temporary name that is refused
    // counting as one
    ensures old(u.failed) <= u.failed
    ensures var t := U.Target(old(u.br), old(u.dirs)[d.key.dir], old(d.di.bstart));
            t >= 0 && (t == old(d.di.bstart) ==> Roomy(old(u.br)[t], d.key, cnt0)) ==>
              err != 0 && u.failed <= old(u.failed) + 1 ==>
                u.br == old(u.br) && U.Same(old(u.failed), u.failed, err, u.lastErr)
    // without lower failures the directory must be empty, a branch writable, and on it a
    // temporary name free
    ensures !FAULTS ==>
              (err == 0 <==>
                 var t := U.Target(old(u.br), old(u.dirs)[d.key.dir], old(d.di.bstart));
                 && EmptyListing(old(d.di), s) && t >= 0
                 && (t == old(d.di.bstart) ==> Roomy(old(u.br)[t], d.key, cnt0)))
    ensures !FAULTS ==> err != -EIO
    // and nothing is left of it if its lower directory there holds no directory
    ensures !FAULTS && err == 0 ==>
              var k, b0, p := d.key, old(d.di.bstart), old(u.dirs)[d.key.dir];
              var t := U.Target(old(u.br), p, b0);
              && t >= 0
              && (u.br == Removed(old(u.br), k, f, b0, t, Judged(old(u.br), p, k, old(d.di), t, true)) <==>
                    t != b0 || (!later && NoDirs(old(u.br)[t].ents, f)))
  {
    hide Vis, Judged, FreshInfo, EmptyListing, Left, Removed, Roomy, Tested, Stack.NoOrphans, Stack.MarksOk, Stack.NeverBoth;
    cnt := cnt0;
    ghost var br0, p, di := u.br, u.dirs[d.key.dir], d.di;
    U.TargetFacts(br0, p, d.di.bstart);
    AsDir(br0, p, d.key, di);
    NoStaleWh(br0, u.dirs, d.key, di.bstart);
    err := QuietFault();
    if err != 0 {
      return;
    }
    var w;
    err, w := TestEmpty(u.br, d.di, f, s);
    if err != 0 {
      return;
    }
    TopmostNoted(br0, di, f, s, w.whs);
    var bstart := d.di.bstart;
    var t, need;
    err, t, need := LockHdirCreateWh(u, d, true);
    if err != 0 {
      return;
    }
    err, cnt := Finish(u, t, bstart, d.key, f, g, w.whs, need, later, cnt0, br0);
  }

  lemma {:induction false} AsDir(br: seq<Branch>, p: DInfo, k: Key, di: DInfo)
    requires DirOk(|br|, p) && DirInfo(br, p, k, di)
    ensures DirOk(|br|, di) && k in br[di.bstart].ents && br[di.bstart].ents[k].typ == DIR
  {
  }
}
