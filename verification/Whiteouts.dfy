/** Whiteouts of unlink: made exactly when needed, and why a writable branch must honour them. */
module Whiteouts {
  import opened Names
  import opened Stack
  import opened Fresh
  import opened Edit
  import opened OpDel
  import U = Union

  /** A whiteout is made exactly when without it the name would still be visible. */
  lemma {:induction false} Minimal(br: seq<Branch>, dirs: Dirs, k: Key, b0: nat, t: nat)
    requires AtRest(br, dirs) && Plain(k) && k.dir in dirs && t <= b0
    requires Topmost(br, dirs[k.dir], k, b0)
    ensures NeedWh(br, dirs[k.dir], k, b0, t) <==> Vis(Unlinked(br, k, b0, t, false), dirs[k.dir], k, 0).Some?
  {
    var p, br' := dirs[k.dir], Unlinked(br, k, b0, t, false);
    if t == b0 {
      assert OnlyAt(br, br', t);
      DecidedAt(br, br', t, p, k);
      NoStaleWh(br, dirs, k, b0);
    } else {
      VisSkip(br, p, k, 0, b0);
    }
  }

  const FILE: Ent := Ent(REG, 7, false)

  const A: Key := Key(0, "a")

  // one directory on two branches, the upper one rw+nolwh and empty
  const PARENT: DInfo := DInfo(0, 1, -1, -1, [Pos(Ent(DIR, 1, false)), Pos(Ent(DIR, 1, false))])

  const BRANCHES: seq<Branch> := [Branch(RWNoLinkWH, false, map[]), Branch(RO, false, map[A := FILE])]

  const DIRS: Dirs := map[0 := PARENT]

  lemma {:induction false} NoLinkAtRest()
    ensures AtRest(BRANCHES, DIRS) && Topmost(BRANCHES, PARENT, A, 1)
  {
    assert PARENT.On(0) && PARENT.On(1);
    assert DirOk(2, PARENT);
    forall k: Key ensures Wh(k) != A {
      assert Wh(k).name[0] == '.';
    }
    forall b | 0 <= b < 2 ensures NeverBoth(BRANCHES[b]) && MarksOk(BRANCHES[b]) && NoOrphans(BRANCHES[b], DIRS, b) {
    }
    assert CellAt(BRANCHES, PARENT, A, 0) == Skip && CellAt(BRANCHES, PARENT, A, 1) == Hit(FILE);
  }

  /** On rw+nolwh over a read-only branch an unlink makes its whiteout where lookup does not look
      for one: the call succeeds and the name stays. */
  lemma {:induction false} NoLinkKeepsName()
    ensures AtRest(BRANCHES, DIRS) && Topmost(BRANCHES, PARENT, A, 1)
    ensures U.Target(BRANCHES, PARENT, 1) == 0 && NeedWh(BRANCHES, PARENT, A, 1, 0)
    ensures var br' := Unlinked(BRANCHES, A, 1, 0, true);
            View(br', DIRS) != View(BRANCHES, DIRS) - {A}
  {
    hide View, Stack.NeverBoth, Stack.MarksOk, Stack.NoOrphans;
    NoLinkAtRest();
    UnlinkOutcome(BRANCHES, DIRS, A, 1, 0);
    assert DIRS[0 := PARENT] == DIRS;
    assert WithDir(PARENT, 0) == PARENT;
  }
}
