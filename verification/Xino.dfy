/** xino.c: the tables that keep the inode numbers of a mount fresh and stable. */
module Xino {
  import opened Names

  const ROOT_INO: nat := 2
  const FIRST_INO: nat := 11
  // one more than the largest ino_t
  const INO_END: nat := 0x1_0000_0000_0000_0000

  /** The number a table holds for a lower inode: none behind its end. */
  function Entry(file: seq<nat>, hIno: nat): nat {
    if hIno < |file| then file[hIno] else 0
  }

  /** A write at the position of a lower inode; what it jumps over reads as zero. */
  function Put(file: seq<nat>, hIno: nat, ino: nat): seq<nat> {
    if hIno < |file| then file[hIno := ino] else file + seq(hIno - |file|, _ => 0) + [ino]
  }

  lemma {:induction false} PutEntry(file: seq<nat>, hIno: nat, ino: nat, other: nat)
    ensures Entry(Put(file, hIno, ino), other) == if other == hIno then ino else Entry(file, other)
  {
  }

  /** A lower inode: its branch and its number there. */
  datatype HIno = HIno(bindex: nat, ino: nat)

  function At(files: seq<seq<nat>>, h: HIno): nat {
    if h.bindex < |files| then Entry(files[h.bindex], h.ino) else 0
  }

  /** Number ino is in some table. */
  ghost predicate Used(files: seq<seq<nat>>, ino: nat) {
    exists h: HIno :: At(files, h) == ino
  }

  ghost predicate Bounded(files: seq<seq<nat>>, counter: nat) {
    forall h: HIno :: At(files, h) == 0 || ROOT_INO <= At(files, h) <= counter
  }

  /** A cached inode has at most one lower inode on each branch. */
  ghost predicate CacheOk(icache: map<nat, set<HIno>>, n: nat, counter: nat) {
    forall i :: i in icache ==> ROOT_INO <= i <= counter && OnePerBranch(icache[i], n)
  }

  ghost predicate OnePerBranch(hs: set<HIno>, n: nat) {
    && (forall h :: h in hs ==> h.bindex < n)
    && forall x, y :: x in hs && y in hs && x.bindex == y.bindex ==> x == y
  }

  /** The lower inodes of a dentry, from its first branch down. */
  ghost predicate SeqOk(hs: seq<HIno>, n: nat) {
    && (forall i :: 0 <= i < |hs| ==> hs[i].bindex < n)
    && forall i, j :: 0 <= i < |hs| && 0 <= j < |hs| && hs[i].bindex == hs[j].bindex ==> i == j
  }

  /** Two lower inodes on one branch. */
  predicate Clash(have: set<HIno>, hs: seq<HIno>) {
    exists x, i :: x in have && 0 <= i < |hs| && hs[i] != x && hs[i].bindex == x.bindex
  }

  function SetOf(hs: seq<HIno>): set<HIno> {
    set h | h in hs
  }

  /** There is a lower inode on the branch of h. */
  predicate Occupied(have: set<HIno>, h: HIno) {
    exists x :: x in have && x.bindex == h.bindex
  }

  lemma {:induction false} NoClash(have: set<HIno>)
    ensures !Clash(have, []) && SetOf([]) == {} && forall hs :: !Clash({}, hs)
  {
  }

  lemma {:induction false} ClashStep(have: set<HIno>, hs: seq<HIno>, i: nat, n: nat)
    requires OnePerBranch(have, n) && SeqOk(hs, n) && i < |hs| && !Clash(have, hs[..i])
    ensures hs[i].bindex < n
    ensures var now := have + SetOf(hs[..i]);
            if hs[i] !in now && Occupied(now, hs[i]) then Clash(have, hs)
            else !Clash(have, hs[..i + 1]) && have + SetOf(hs[..i + 1]) == now + {hs[i]}
  {
    assert forall j :: 0 <= j < i ==> hs[..i][j] == hs[j];
    assert hs[..i + 1] == hs[..i] + [hs[i]];
    assert forall h :: h in hs[..i] ==> h.bindex != hs[i].bindex;
  }

  lemma {:induction false} PutAt(files: seq<seq<nat>>, h: HIno, ino: nat, x: HIno)
    requires h.bindex < |files|
    ensures At(files[h.bindex := Put(files[h.bindex], h.ino, ino)], x) == if x == h then ino else At(files, x)
  {
    if x.bindex == h.bindex {
      PutEntry(files[h.bindex], h.ino, ino, x.ino);
    }
  }

  class SbInfo {
    // the AuFlag_XINO flag, the branches' br_xino files and si_xino
    var on: bool
    var files: seq<seq<nat>>
    var counter: nat
    // the aufs inodes in the inode cache, by i_ino, each with its lower inodes
    var icache: map<nat, set<HIno>>

    ghost predicate Valid()
      reads this
    {
      FIRST_INO <= counter < INO_END && Bounded(files, counter) && CacheOk(icache, |files|, counter)
    }

    constructor (n: nat)
      ensures Valid() && on && |files| == n && counter == FIRST_INO && icache == map[]
      ensures forall h: HIno :: At(files, h) == 0
    {
      on := true;
      files := seq(n, _ => []);
      counter := FIRST_INO;
      icache := map[];
    }

    /** xino_read. */
    method Read(h: HIno) returns (err: int, ino: nat)
      requires Valid() && h.bindex < |files|
      ensures err <= 0 && (err == 0 ==> ino == if on then At(files, h) else 0) && (!FAULTS ==> err == 0)
    {
      err, ino := 0, 0;
      if !on {
        return;
      }
      if |files[h.bindex]| < h.ino + 1 {
        return;
      }
      err := LowerFault();
      if err == 0 {
        ino := files[h.bindex][h.ino];
      }
    }

    /** xino_write; zero takes the number back. */
    method Write(h: HIno, ino: nat) returns (err: int)
      requires Valid() && h.bindex < |files| && (ino == 0 || ROOT_INO <= ino <= counter)
      modifies `files
      ensures Valid() && |files| == |old(files)| && (err == 0 || (FAULTS && err == -EIO))
      ensures err != 0 || !on ==> files == old(files)
      ensures err == 0 && on ==> forall x :: At(files, x) == if x == h then ino else At(old(files), x)
    {
      if !on {
        return 0;
      }
      err := LowerFault();
      if err != 0 {
        return -EIO;
      }
      var next := files[h.bindex := Put(files[h.bindex], h.ino, ino)];
      forall x: HIno ensures At(next, x) == if x == h then ino else At(files, x) {
        PutAt(files, h, ino, x);
      }
      files := next;
    }

    /** xino_new_ino: a number in no table, until the numbers run out. */
    method NewIno() returns (ino: nat)
      requires Valid()
      modifies `counter
      ensures Valid()
      ensures ino == 0 <==> old(counter) + 1 == INO_END
      ensures ino == 0 ==> counter == old(counter)
      ensures ino != 0 ==> ino == counter == old(counter) + 1 && !Used(files, ino)
    {
      ino := (counter + 1) % INO_END;
      if ino >= ROOT_INO {
        counter := ino;
      } else {
        ino := 0;
      }
    }

    /** The number part of fillvdir: what readdir reports for a lower inode. */
    method FillIno(h: HIno) returns (err: int, ino: nat)
      requires Valid() && h.bindex < |files|
      modifies `files, `counter
      ensures Valid() && |files| == |old(files)| && err <= 0 && old(counter) <= counter
      ensures forall x :: x != h ==> At(files, x) == At(old(files), x)
      ensures err == 0 && on ==> At(files, h) == ino
      ensures err == 0 && on && At(old(files), h) != 0 ==> ino == At(old(files), h) && counter == old(counter)
      ensures err == 0 && ino != 0 && (!on || At(old(files), h) == 0) ==> !Used(old(files), ino) && ino > old(counter)
      ensures err == 0 && ino == 0 ==> old(counter) + 1 == INO_END
      ensures err != 0 ==> files == old(files)
      ensures !FAULTS ==> err == 0
    {
      err, ino := Read(h);
      if err == 0 {
        if ino == 0 {
          ino := NewIno();
        }
        // running out of numbers is not told from here
        err := Write(h, ino);
      }
    }

    /** set_h_iptr with xino on: the aufs inode's number under one more lower inode; a failed
        write turns xino off. */
    method SetHIptr(h: HIno, ino: nat)
      requires Valid() && h.bindex < |files| && ROOT_INO <= ino <= counter
      modifies `files, `on
      ensures Valid() && |files| == |old(files)| && (on ==> old(on)) && (!FAULTS ==> on == old(on))
      ensures on ==> forall x :: At(files, x) == if x == h then ino else At(old(files), x)
      ensures !on ==> files == old(files)
    {
      if on {
        var err := Write(h, ino);
        if err != 0 {
          on := false;
        }
      }
    }

    /** set_h_iptr for the cached inode ino, on a branch where it has no lower inode. */
    method Gain(ino: nat, h: HIno)
      requires Valid() && ino in icache && h.bindex < |files| && !Occupied(icache[ino], h)
      modifies `files, `on, `icache
      ensures Valid() && |files| == |old(files)| && (on ==> old(on))
      ensures icache == old(icache)[ino := old(icache)[ino] + {h}]
      ensures on ==> forall x :: At(files, x) == if x == h then ino else At(old(files), x)
    {
      hide At;
      SetHIptr(h, ino);
      icache := icache[ino := icache[ino] + {h}];
    }

    /** What au_refresh_hinode does with the lower inodes of the dentry: those the cached inode ino
        does not have are added, up to the first branch where it has another one. */
    method AddLower(ino: nat, hs: seq<HIno>) returns (err: int)
      requires Valid() && ino in icache && SeqOk(hs, |files|)
      modifies `files, `on, `icache
      ensures Valid() && |files| == |old(files)| && (on ==> old(on))
      ensures err == if Clash(old(icache)[ino], hs) then -ESTALE else 0
      ensures ino in icache && icache == old(icache)[ino := icache[ino]]
      ensures old(icache)[ino] <= icache[ino] && forall h :: h in icache[ino] ==> h in old(icache)[ino] || h in hs
      ensures err == 0 ==> forall h :: h in hs ==> h in icache[ino]
      ensures on ==> forall x :: At(files, x) == if x in icache[ino] - old(icache)[ino] then ino else At(old(files), x)
    {
      hide At, Bounded, Clash, SeqOk, Occupied, OnePerBranch;
      ghost var have, n := icache[ino], |files|;
      NoClash(have);
      var i := 0;
      while i < |hs|
        invariant 0 <= i <= |hs| && Valid() && |files| == n && (on ==> old(on))
        invariant ino in icache && icache == old(icache)[ino := icache[ino]]
        invariant icache[ino] == have + SetOf(hs[..i])
        invariant !Clash(have, hs[..i])
        invariant on ==> forall x :: At(files, x) == if x in icache[ino] - have then ino else At(old(files), x)
      {
        ClashStep(have, hs, i, n);
        if hs[i] !in icache[ino] {
          if Occupied(icache[ino], hs[i]) {
            return -ESTALE;
          }
          Gain(ino, hs[i]);
        }
        i := i + 1;
      }
      assert hs[..i] == hs;
      err := 0;
    }

    /** iget_locked's inode, new or cached, takes the dentry's lower inodes. */
    method Take(ino: nat, hs: seq<HIno>) returns (err: int)
      requires Valid() && ROOT_INO <= ino <= counter && SeqOk(hs, |files|)
      modifies `files, `on, `icache
      ensures Valid() && |files| == |old(files)| && (on ==> old(on))
      ensures err == if ino in old(icache) && Clash(old(icache)[ino], hs) then -ESTALE else 0
      ensures Grown(old(icache), icache, files, on)
      ensures err == 0 ==> ino in icache && forall h :: h in hs ==> h in icache[ino]
      ensures on ==> forall x :: At(files, x) == At(old(files), x) || (x in hs && At(files, x) == ino)
      ensures on && ino !in old(icache) ==> forall h :: h in hs ==> At(files, h) == ino
    {
      hide At, Bounded, Clash, SeqOk, SetOf, Covers, Grown;
      NoClash({});
      ghost var was := icache;
      if ino !in icache {
        icache := icache[ino := {}];
      }
      ghost var have := icache[ino];
      err := AddLower(ino, hs);
      GrownAt(was, icache, ino, have, files, on);
    }

    /** au_new_inode, for a dentry with the lower inodes top and below: the number is the top lower
        inode's, unless the inode cached under it is of another generation, when the number is
        taken back and a new one given. A cached inode gains lower inodes only where it has none. */
    method NewInode(top: HIno, below: seq<HIno>, same: bool) returns (err: int, ino: nat)
      requires Valid() && SeqOk([top] + below, |files|)
      modifies this
      ensures Valid() && |files| == |old(files)| && err <= 0 && old(counter) <= counter && (on ==> old(on))
      ensures Known(old(on), old(files), top) != 0 && !Stale(old(on), old(files), old(icache), top, same) ==>
                (err == 0 ==> ino == At(old(files), top)) && (on ==> At(files, top) == At(old(files), top))
      ensures err == 0 && (Known(old(on), old(files), top) == 0 || Stale(old(on), old(files), old(icache), top, same)) ==>
                !Used(old(files), ino) && ino > old(counter) && ino !in old(icache)
      ensures on ==> forall x :: x !in [top] + below ==> At(files, x) == At(old(files), x)
      ensures err == 0 && on ==> At(files, top) == ino
      // the inode it is about, and what else is cached
      ensures err == 0 ==> ino in icache && forall h :: h in [top] + below ==> h in icache[ino]
      ensures Grown(old(icache), icache, files, on)
      ensures !FAULTS && old(counter) + 1 < INO_END ==>
                (err == 0 <==>
                   var n := Known(old(on), old(files), top);
                   !(n != 0 && n in old(icache) && same && Clash(old(icache)[n], [top] + below)))
      // and when there is no number left, one of another generation is taken back all the same
      ensures !FAULTS && old(on) && old(counter) + 1 == INO_END
              && (At(old(files), top) == 0 || Stale(old(on), old(files), old(icache), top, same)) ==>
                err == -EIO && At(files, top) == 0
    {
      hide At, Clash, OnePerBranch;
      var hs := [top] + below;
      assert hs[0] == top;
      err, ino := Read(top);
      if err != 0 {
        return;
      }
      if ino != 0 {
        // iget_locked
        err := LowerFault();
        if err != 0 {
          return;
        }
        if ino !in icache || same {
          err := Take(ino, hs);
          return;
        }
        err := Write(top, 0);
        if err != 0 {
          return;
        }
      }
      ino := NewIno();
      if ino == 0 {
        return -EIO, 0;
      }
      err := LowerFault();
      if err == 0 {
        err := Take(ino, hs);
      }
    }

    /** cpup_single, at its end: a cached inode gets a lower inode on a branch where it had none, and
        its own number goes into that branch's table. */
    method CopyUp(ino: nat, to: HIno) returns (err: int)
      requires Valid() && to.bindex < |files|
      modifies `files, `on, `icache
      ensures Valid() && |files| == |old(files)| && (on ==> old(on))
      ensures err == if ino in old(icache) && !Occupied(old(icache)[ino], to) then 0 else -EINVAL
      ensures icache == if err == 0 then old(icache)[ino := old(icache)[ino] + {to}] else old(icache)
      ensures on ==> forall x :: At(files, x) == if err == 0 && x == to then ino else At(old(files), x)
    {
      if ino !in icache || Occupied(icache[ino], to) {
        return -EINVAL;
      }
      Gain(ino, to);
      err := 0;
    }
  }

  /** The number a table that is in use has for a lower inode. */
  function Known(on: bool, files: seq<seq<nat>>, h: HIno): nat {
    if on then At(files, h) else 0
  }

  /** The inode cached under the number of h is of another generation. */
  predicate Stale(on: bool, files: seq<seq<nat>>, icache: map<nat, set<HIno>>, h: HIno, same: bool) {
    Known(on, files, h) != 0 && Known(on, files, h) in icache && !same
  }

  predicate Covers(icache: map<nat, set<HIno>>, ino: nat, h: HIno) {
    ino in icache && h in icache[ino]
  }

  /** No cached inode is lost or loses anything, and what one gains has its number in the table. */
  ghost predicate Grown(icache: map<nat, set<HIno>>, icache': map<nat, set<HIno>>, files: seq<seq<nat>>, on: bool) {
    && (forall n, h :: Covers(icache, n, h) ==> Covers(icache', n, h))
    && forall n, h :: Covers(icache', n, h) && !Covers(icache, n, h) && on ==> At(files, h) == n
  }

  lemma {:induction false} GrownAt(icache: map<nat, set<HIno>>, icache': map<nat, set<HIno>>, ino: nat, have: set<HIno>,
                                   files: seq<seq<nat>>, on: bool)
    requires have == if ino in icache then icache[ino] else {}
    requires ino in icache' && icache' == icache[ino := icache'[ino]] && have <= icache'[ino]
    requires on ==> forall h :: h in icache'[ino] - have ==> At(files, h) == ino
    ensures Grown(icache, icache', files, on)
  {
    hide At;
  }

  /** What happens to the tables and to the inodes. A lookup finds the lower inodes of a dentry, and
      whether the cached inode, if there is one, is of the same generation; a copy-up gives the
      inode ino a lower inode more; an inode may leave the cache. */
  datatype Req =
    | ReadDir(h: HIno)
    | New(top: HIno, below: seq<HIno>, same: bool)
    | CopyUp(ino: nat, to: HIno)
    | Evict(ino: nat)

  ghost predicate ReqOk(r: Req, n: nat) {
    match r
    case ReadDir(h) => h.bindex < n
    case New(top, below, _) => SeqOk([top] + below, n)
    case CopyUp(_, to) => to.bindex < n
    case Evict(_) => true
  }

  /** The tables, the counter and the cached inodes. */
  datatype Tab = Tab(files: seq<seq<nat>>, counter: nat, icache: map<nat, set<HIno>>)

  /** The requests that may change a number h already has: it is taken back, or another aufs inode
      comes to cover h. Listing h again, looking it up or dropping its inode is none of them. */
  predicate Touches(t: Tab, r: Req, h: HIno) {
    match r
    case New(top, below, same) => h in below || (h == top && Stale(true, t.files, t.icache, top, same))
    case CopyUp(_, to) => to == h
    case _ => false
  }

  /** The requests that report a number for h: readdir, and a lookup that finds no stale inode. */
  predicate Reports(t: Tab, r: Req, h: HIno) {
    match r
    case ReadDir(x) => x == h
    case New(top, _, same) => top == h && !Stale(true, t.files, t.icache, top, same)
    case _ => false
  }

  /** When lower calls do not fail, and numbers have not run out: what does not succeed is a lookup of
      a cached inode that has another lower inode on a branch, and a copy-up of an inode that is not
      cached or is on the branch already. */
  predicate Works(t: Tab, r: Req) {
    match r
    case New(top, below, same) =>
      var n := At(t.files, top);
      !(n != 0 && n in t.icache && same && Clash(t.icache[n], [top] + below))
    case CopyUp(ino, to) => ino in t.icache && !Occupied(t.icache[ino], to)
    case _ => true
  }

  /** What one request does while xino is on. */
  ghost predicate Step(t: Tab, req: Req, err: int, ino: nat, t': Tab) {
    && Bounded(t.files, t.counter) && Bounded(t'.files, t'.counter) && t.counter <= t'.counter
    && (forall x: HIno :: At(t.files, x) != 0 && !Touches(t, req, x) ==> At(t'.files, x) == At(t.files, x))
    && (forall h: HIno :: Reports(t, req, h) && err == 0 ==>
          && At(t'.files, h) == ino
          && (if At(t.files, h) != 0 then ino == At(t.files, h) else ino == 0 || ino > t.counter))
    && (req.New? && err == 0 ==> forall h :: h in [req.top] + req.below ==> Covers(t'.icache, ino, h))
    && (req.CopyUp? && err == 0 ==> Covers(t'.icache, req.ino, req.to) && At(t'.files, req.to) == req.ino)
    // a stale inode is never what a lookup gives
    && (req.New? && err == 0 && At(t.files, req.top) in t.icache && !req.same ==> ino > t.counter)
    && (req.Evict? ==> req.ino !in t'.icache)
    && (!FAULTS && t.counter + 1 < INO_END ==> (err == 0 <==> Works(t, req)))
    && (req.ReadDir? && err == 0 && ino == 0 ==> t.counter + 1 == INO_END)
    && (forall n, h :: Covers(t.icache, n, h) && req != Evict(n) ==> Covers(t'.icache, n, h))
    && (forall n, h :: Covers(t'.icache, n, h) && !Covers(t.icache, n, h) ==> At(t'.files, h) == n)
    && forall n, h :: Covers(t.icache, n, h) ==> n != 0
  }

  /** A run, request by request. */
  ghost predicate Trace(tabs: seq<Tab>, reqs: seq<Req>, errs: seq<int>, inos: seq<nat>) {
    && |tabs| == |errs| + 1 && |errs| == |inos| <= |reqs|
    && forall i :: 0 <= i < |errs| ==> Step(tabs[i], reqs[i], errs[i], inos[i], tabs[i + 1])
  }

  /** Nothing touches h from request i up to request n. */
  ghost predicate Untouched(tabs: seq<Tab>, reqs: seq<Req>, h: HIno, i: nat, n: nat) {
    n <= |reqs| && n <= |tabs| && forall k :: i <= k < n ==> !Touches(tabs[k], reqs[k], h)
  }

  /** Each cached inode that covers h has the number that the table has for h. */
  ghost predicate Agrees(t: Tab, h: HIno) {
    forall n :: Covers(t.icache, n, h) ==> At(t.files, h) == n
  }

  /** A number stays while nothing touches its lower inode. */
  lemma {:induction false} Keeps(tabs: seq<Tab>, reqs: seq<Req>, errs: seq<int>, inos: seq<nat>, h: HIno, i: nat, j: nat)
    requires Trace(tabs, reqs, errs, inos) && i <= j < |tabs|
    requires At(tabs[i].files, h) != 0 && Untouched(tabs, reqs, h, i, j)
    ensures At(tabs[j].files, h) == At(tabs[i].files, h)
    decreases j
  {
    hide At, Touches, Reports, Bounded, Covers;
    if i < j {
      Keeps(tabs, reqs, errs, inos, h, i, j - 1);
      assert Step(tabs[j - 1], reqs[j - 1], errs[j - 1], inos[j - 1], tabs[j]);
    }
  }

  /** Tables and cached inodes go on to agree about a lower inode that nothing touches. */
  lemma {:induction false} AgreesStill(tabs: seq<Tab>, reqs: seq<Req>, errs: seq<int>, inos: seq<nat>, h: HIno, i: nat, j: nat)
    requires Trace(tabs, reqs, errs, inos) && i <= j < |tabs|
    requires Agrees(tabs[i], h) && Untouched(tabs, reqs, h, i, j)
    ensures Agrees(tabs[j], h)
    decreases j
  {
    hide At, Touches, Reports, Bounded, Covers;
    if i < j {
      AgreesStill(tabs, reqs, errs, inos, h, i, j - 1);
      assert Step(tabs[j - 1], reqs[j - 1], errs[j - 1], inos[j - 1], tabs[j]);
    }
  }

  /** Two reports about a lower inode agree if it is not touched between them. */
  lemma {:induction false} ReportsAgree(tabs: seq<Tab>, reqs: seq<Req>, errs: seq<int>, inos: seq<nat>, h: HIno, i: nat, j: nat)
    requires Trace(tabs, reqs, errs, inos) && i < j < |errs|
    requires Reports(tabs[i], reqs[i], h) && errs[i] == 0 && inos[i] != 0 && Reports(tabs[j], reqs[j], h) && errs[j] == 0
    requires Untouched(tabs, reqs, h, i + 1, j)
    ensures inos[j] == inos[i]
  {
    hide At, Touches, Reports, Bounded, Covers;
    assert Step(tabs[i], reqs[i], errs[i], inos[i], tabs[i + 1]);
    Keeps(tabs, reqs, errs, inos, h, i + 1, j);
    assert Step(tabs[j], reqs[j], errs[j], inos[j], tabs[j + 1]);
  }

  /** Copy-up keeps the number: when an inode that covers from gets the lower inode to, what is
      reported for to is what was reported for from, if tables and inodes agreed about from and
      neither is touched otherwise. */
  lemma {:induction false} CopyUpKeeps(tabs: seq<Tab>, reqs: seq<Req>, errs: seq<int>, inos: seq<nat>,
                                       from: HIno, to: HIno, i: nat, c: nat, j: nat)
    requires Trace(tabs, reqs, errs, inos) && i < c < j < |errs|
    requires reqs[c].CopyUp? && reqs[c].to == to && errs[c] == 0 && Covers(tabs[c].icache, reqs[c].ino, from)
    requires Agrees(tabs[i], from) && Untouched(tabs, reqs, from, i, c)
    requires Reports(tabs[i], reqs[i], from) && errs[i] == 0 && inos[i] != 0
    requires Reports(tabs[j], reqs[j], to) && errs[j] == 0 && Untouched(tabs, reqs, to, c + 1, j)
    ensures inos[j] == inos[i] == reqs[c].ino
  {
    hide At, Touches, Reports, Bounded, Covers;
    assert Step(tabs[i], reqs[i], errs[i], inos[i], tabs[i + 1]);
    Keeps(tabs, reqs, errs, inos, from, i + 1, c);
    AgreesStill(tabs, reqs, errs, inos, from, i, c);
    assert Step(tabs[c], reqs[c], errs[c], inos[c], tabs[c + 1]);
    Keeps(tabs, reqs, errs, inos, to, c + 1, j);
    assert Step(tabs[j], reqs[j], errs[j], inos[j], tabs[j + 1]);
  }

  lemma {:induction false} CounterGrows(tabs: seq<Tab>, reqs: seq<Req>, errs: seq<int>, inos: seq<nat>, i: nat, j: nat)
    requires Trace(tabs, reqs, errs, inos) && i <= j < |tabs|
    ensures tabs[i].counter <= tabs[j].counter
    decreases j
  {
    hide At, Touches, Reports, Bounded, Covers;
    if i < j {
      CounterGrows(tabs, reqs, errs, inos, i, j - 1);
      assert Step(tabs[j - 1], reqs[j - 1], errs[j - 1], inos[j - 1], tabs[j]);
    }
  }

  /** A number reported for a lower inode that had none was in no table before, ever. */
  lemma {:induction false} NewNumber(tabs: seq<Tab>, reqs: seq<Req>, errs: seq<int>, inos: seq<nat>, h: HIno, i: nat, k: nat, x: HIno)
    requires Trace(tabs, reqs, errs, inos) && k <= i < |errs|
    requires Reports(tabs[i], reqs[i], h) && errs[i] == 0 && inos[i] != 0 && At(tabs[i].files, h) == 0
    ensures At(tabs[k].files, x) != inos[i]
  {
    hide At, Touches, Reports, Covers;
    CounterGrows(tabs, reqs, errs, inos, k, i);
    assert Step(tabs[i], reqs[i], errs[i], inos[i], tabs[i + 1]);
    if k < i {
      assert Step(tabs[k], reqs[k], errs[k], inos[k], tabs[k + 1]);
    }
  }

  /** Every run with xino on throughout is such a trace. */
  method Run(sb: SbInfo, reqs: seq<Req>) returns (errs: seq<int>, inos: seq<nat>, ghost tabs: seq<Tab>)
    requires sb.Valid() && forall i :: 0 <= i < |reqs| ==> ReqOk(reqs[i], |sb.files|)
    modifies sb
    ensures sb.Valid() && |errs| == |inos| == |reqs|
    ensures !FAULTS ==> forall i :: 0 <= i < |reqs| && reqs[i].ReadDir? ==> errs[i] == 0
    ensures sb.on ==> Trace(tabs, reqs, errs, inos)
    ensures sb.on ==> tabs[0] == Tab(old(sb.files), old(sb.counter), old(sb.icache)) && tabs[|reqs|] == Tab(sb.files, sb.counter, sb.icache)
  {
    hide Step;
    errs, inos := [], [];
    tabs := [Tab(sb.files, sb.counter, sb.icache)];
    while |errs| < |reqs|
      invariant |errs| == |inos| <= |reqs| && sb.Valid() && |sb.files| == |old(sb.files)|
      invariant !FAULTS ==> forall i :: 0 <= i < |errs| && reqs[i].ReadDir? ==> errs[i] == 0
      invariant |tabs| == |errs| + 1 && (sb.on ==> Trace(tabs, reqs, errs, inos))
      invariant tabs[0] == Tab(old(sb.files), old(sb.counter), old(sb.icache)) && tabs[|errs|] == Tab(sb.files, sb.counter, sb.icache)
      decreases |reqs| - |errs|
    {
      var err, ino := Apply(sb, reqs[|errs|]);
      ghost var t := Tab(sb.files, sb.counter, sb.icache);
      if sb.on {
        TraceMore(tabs, reqs, errs, inos, err, ino, t);
      }
      tabs, errs, inos := tabs + [t], errs + [err], inos + [ino];
    }
  }

  lemma {:induction false} TraceMore(tabs: seq<Tab>, reqs: seq<Req>, errs: seq<int>, inos: seq<nat>, err: int, ino: nat, t: Tab)
    requires Trace(tabs, reqs, errs, inos) && |errs| < |reqs| && Step(tabs[|errs|], reqs[|errs|], err, ino, t)
    ensures Trace(tabs + [t], reqs, errs + [err], inos + [ino])
  {
    hide Step;
    var tabs', errs', inos' := tabs + [t], errs + [err], inos + [ino];
    forall i | 0 <= i < |errs'| ensures Step(tabs'[i], reqs[i], errs'[i], inos'[i], tabs'[i + 1]) {
      assert i < |errs| ==> tabs'[i] == tabs[i] && tabs'[i + 1] == tabs[i + 1] && errs'[i] == errs[i] && inos'[i] == inos[i];
    }
  }

  method Apply(sb: SbInfo, req: Req) returns (err: int, ino: nat)
    requires sb.Valid() && ReqOk(req, |sb.files|)
    modifies sb
    ensures sb.Valid() && |sb.files| == |old(sb.files)| && (sb.on ==> old(sb.on))
    ensures !FAULTS && req.ReadDir? ==> err == 0
    ensures sb.on ==> Step(Tab(old(sb.files), old(sb.counter), old(sb.icache)), req, err, ino, Tab(sb.files, sb.counter, sb.icache))
  {
    hide At, Clash, OnePerBranch, Occupied, SeqOk;
    err, ino := 0, 0;
    match req {
      case ReadDir(x) => err, ino := sb.FillIno(x);
      case New(top, below, same) => err, ino := sb.NewInode(top, below, same);
      case CopyUp(n, to) => err := sb.CopyUp(n, to);
      case Evict(n) => sb.icache := sb.icache - {n};
    }
  }
}
