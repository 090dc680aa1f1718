/** Lookup and readdir are independent algorithms; they agree on what exists. */
module Listing {
  import opened Names
  import opened Stack
  import opened Lookup
  import opened Fresh
  import opened Readdir

  /** A shown plain name is topmost on the branch that shows it, and vice versa. */
  lemma {:induction false} ShownIsTopmost(br: seq<Branch>, dirs: Dirs, d: Dir, s: seq<seq<string>>, n: string, j: nat)
    requires AtRest(br, dirs) && d in dirs && ReadsAll(br, dirs[d], d, s)
    requires Plain(Key(d, n)) && !Dot(n)
    ensures Shown(dirs[d], s, n, j) <==> Topmost(br, dirs[d], Key(d, n), j)
  {
    var p, k := dirs[d], Key(d, n);
    if Shown(p, s, n, j) || Topmost(br, p, k, j) {
      assert NeverBoth(br[j]) && Reads(br[j], d, s[j]);
      forall i | 0 <= i < j ensures Met(p, s, n, i) <==> CellAt(br, p, k, i) != Skip {
        MetIsCell(br, dirs, d, s, n, i);
      }
      if Topmost(br, p, k, j) {
        forall i | 0 <= i < j ensures !Met(p, s, n, i) {
          assert CellAt(br, p, k, i) == Skip;
        }
      }
    }
  }

  lemma {:induction false} MetIsCell(br: seq<Branch>, dirs: Dirs, d: Dir, s: seq<seq<string>>, n: string, i: nat)
    requires AtRest(br, dirs) && d in dirs && ReadsAll(br, dirs[d], d, s)
    requires Plain(Key(d, n)) && !Dot(n) && i < |br|
    ensures Met(dirs[d], s, n, i) <==> CellAt(br, dirs[d], Key(d, n), i) != Skip
  {
    var p, k := dirs[d], Key(d, n);
    assert MarksOk(br[i]);
    assert Wh(k) == Key(d, WhName(n));
    if p.On(i) {
      assert Reads(br[i], d, s[i]);
      assert !Dot(WhName(n)) || n == ".";
    }
  }

  /** Topmost branches are unique, and are where lookup finds the name. */
  lemma {:induction false} TopmostIsVis(br: seq<Branch>, p: DInfo, k: Key, j: nat)
    requires |br| == |p.h| && Topmost(br, p, k, j)
    ensures Vis(br, p, k, 0) == Some(br[j].ents[k])
  {
    VisSkip(br, p, k, 0, j);
  }

  /** Lookup and readdir agree: a complete listing has a plain name exactly once iff a fresh
      lookup finds it, and then the entry listed is the one lookup finds first. */
  lemma {:induction false} LookupIffListed(br: seq<Branch>, dirs: Dirs, d: Dir, s: seq<seq<string>>, list: seq<Listed>, n: string)
    requires AtRest(br, dirs) && d in dirs && ReadsAll(br, dirs[d], d, s) && Complete(dirs[d], s, list)
    requires Plain(Key(d, n)) && !Dot(n)
    ensures (exists x :: 0 <= x < |list| && list[x].name == n) <==>
              Looked(br, dirs[d], Key(d, n), dirs[d].bstart, None, Blank(|br|)).0 > 0
    ensures forall x, y :: 0 <= x < |list| && 0 <= y < |list| && list[x].name == n == list[y].name ==> x == y
    ensures forall x :: 0 <= x < |list| && list[x].name == n ==>
              list[x].b == FreshInfo(br, dirs[d], Key(d, n)).bstart
  {
    var p, k := dirs[d], Key(d, n);
    AboveBstart(br, p, k);
    MergeVis(br, p, k, p.bstart);
    ScanCount(br, p, k, p.bstart, true, None, Blank(|br|));
    if Vis(br, p, k, 0) != None {
      FreshPositive(br, p, k);
      var b := Merged(br, p, k)[0];
      assert Topmost(br, p, k, b) by {
        forall i | 0 <= i < b ensures CellAt(br, p, k, i) == Skip {
        }
      }
      ShownIsTopmost(br, dirs, d, s, n, b);
      assert Listed(n, b) in list;
    }
    forall x | 0 <= x < |list| && list[x].name == n
      ensures Vis(br, p, k, 0) != None && list[x].b == FreshInfo(br, p, k).bstart
    {
      assert Listed(n, list[x].b) in list;
      ShownIsTopmost(br, dirs, d, s, n, list[x].b);
      TopmostIsVis(br, p, k, list[x].b);
      assert CellAt(br, p, k, FreshInfo(br, p, k).bstart) != Skip;
    }
  }

  /** Of the names that lookup refuses, readdir shows only the bare prefix. */
  lemma {:induction false} RefusedButShown(p: DInfo, s: seq<seq<string>>, n: string, j: nat)
    requires |s| == |p.h| && Shown(p, s, n, j) && Reserved(n)
    ensures n == WH_PFX
  {
    assert n == n[..|WH_PFX|] == WH_PFX;
  }

  // one directory on two branches, and nothing but it
  const ONE_DIR: DInfo := DInfo(0, 1, -1, -1, [Pos(Ent(DIR, 1, false)), Pos(Ent(DIR, 1, false))])

  const FILE: Ent := Ent(REG, 7, false)

  /** Why a name must not stand beside its whiteout: readdir still shows it, lookup does not. */
  lemma {:induction false} BothDisagree()
    ensures var k := Key(0, "a");
            var br := [Branch(RW, false, map[k := FILE, Wh(k) := Ent(REG, 0, false)]), Branch(RO, false, map[])];
            var s := [[".", "..", "a", ".wh.a"], [".", ".."]];
            && DirOk(2, ONE_DIR) && ReadsAll(br, ONE_DIR, 0, s)
            && Shown(ONE_DIR, s, "a", 0) && Vis(br, ONE_DIR, k, 0) == None
  {
    var k := Key(0, "a");
    var w := Key(0, ".wh.a");
    assert Wh(k) == w;
    assert ONE_DIR.On(0) && ONE_DIR.On(1);
    assert w.name != "a";
  }

  /** Why a branch that cannot hold whiteouts must not: readdir honours one, lookup does not. */
  lemma {:induction false} StrayWhiteoutDisagrees()
    ensures var k := Key(0, "a");
            var br := [Branch(RO, false, map[Wh(k) := Ent(REG, 0, false)]), Branch(RO, false, map[k := FILE])];
            var s := [[".", "..", ".wh.a"], [".", "..", "a"]];
            && DirOk(2, ONE_DIR) && ReadsAll(br, ONE_DIR, 0, s)
            && (forall j :: !Shown(ONE_DIR, s, "a", j)) && Vis(br, ONE_DIR, k, 0) == Some(FILE)
  {
    hide Plain;
    var k := Key(0, "a");
    var w := Key(0, ".wh.a");
    var br := [Branch(RO, false, map[Wh(k) := Ent(REG, 0, false)]), Branch(RO, false, map[k := FILE])];
    var s := [[".", "..", ".wh.a"], [".", "..", "a"]];
    assert Wh(k) == w && WhName("a") == w.name;
    assert ONE_DIR.On(0) && ONE_DIR.On(1);
    assert Met(ONE_DIR, s, "a", 0);
    assert CellAt(br, ONE_DIR, k, 0) == Skip;
    assert CellAt(br, ONE_DIR, k, 1) == Hit(FILE);
  }

  /** The one name that readdir shows and lookup refuses. */
  lemma {:induction false} BarePrefixShown()
    ensures var k := Key(0, WH_PFX);
            var br := [Branch(RW, false, map[k := FILE]), Branch(RO, false, map[])];
            var s := [[".", "..", WH_PFX], [".", ".."]];
            && AtRest(br, map[0 := ONE_DIR]) && ReadsAll(br, ONE_DIR, 0, s)
            && Shown(ONE_DIR, s, WH_PFX, 0) && Reserved(WH_PFX)
  {
    assert ONE_DIR.On(0) && ONE_DIR.On(1);
  }
}
