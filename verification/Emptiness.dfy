/** dir.c and whout.c: is a merged directory empty, and emptying its topmost lower directory. */
module Emptiness {
  import opened Names
  import opened Stack
  import opened Readdir
  import opened Lookup
  import opened Edit
  import U = Union

  /** A whiteout met, with the branch it was met on first. */
  datatype WhEnt = WhEnt(name: string, b: nat)

  /** The hash list of whiteouts. */
  class WhList {
    var whs: seq<WhEnt>

    constructor ()
      ensures whs == []
    {
      whs := [];
    }

    predicate Has(n: string)
      reads this
    {
      HasWh(whs, n)
    }

    /** test_empty_cb: one lower entry of branch b. Its own failures are never ENOTEMPTY. */
    method TestEmptyCb(whonly: bool, b: nat, name: string) returns (err: int)
      modifies this
      ensures err <= 0
      ensures err == -ENOTEMPTY <==> !Dot(name) && !Mark(name) && whonly && !HasWh(old(whs), name)
      ensures err == 0 ==> whs == Noted(old(whs), b, name)
      ensures !FAULTS ==> err in {0, -ENOTEMPTY}
    {
      if Dot(name) {
        return 0;
      }
      if !Mark(name) {
        return if whonly && !Has(name) then -ENOTEMPTY else 0;
      }
      err := 0;
      if !Has(Stripped(name)) {
        err := QuietFault();
        if err == 0 {
          whs := whs + [WhEnt(Stripped(name), b)];
        }
      }
    }
  }

  predicate HasWh(whs: seq<WhEnt>, n: string) {
    exists x :: 0 <= x < |whs| && whs[x].name == n
  }

  function Noted(whs: seq<WhEnt>, b: nat, name: string): seq<WhEnt> {
    if Mark(name) && !HasWh(whs, Stripped(name)) then whs + [WhEnt(Stripped(name), b)] else whs
  }

  /** Opening or reading a lower directory, or no memory. */
  method QuietFault() returns (err: int)
    ensures err <= 0 && err != -ENOTEMPTY
    ensures !FAULTS ==> err == 0
  {
    err := LowerFault();
    if err == -ENOTEMPTY {
      err := -EIO;
    }
  }

  /** The merged listing has nothing but the two dots. */
  ghost predicate EmptyListing(p: DInfo, s: seq<seq<string>>)
    requires |s| == |p.h|
  {
    forall n, j :: Shown(p, s, n, j) ==> Dot(n)
  }

  /** A whiteout of n stands above branch i. */
  ghost predicate Covered(p: DInfo, s: seq<seq<string>>, n: string, i: nat)
    requires i <= |s| == |p.h|
  {
    exists c :: 0 <= c < i && p.On(c) && WhName(n) in s[c]
  }

  /** Branch j has an entry, not a whiteout, that no whiteout above covers. */
  ghost predicate Exposed(p: DInfo, s: seq<seq<string>>, n: string, j: nat)
    requires |s| == |p.h|
  {
    j < |s| && p.On(j) && n in s[j] && !Dot(n) && !Mark(n) && !Covered(p, s, n, j)
  }

  /** No reading holds a name beside its whiteout. */
  ghost predicate Apart(p: DInfo, s: seq<seq<string>>)
    requires |s| == |p.h|
  {
    forall i, n :: 0 <= i < |s| && p.On(i) && n in s[i] && !Mark(n) && !Dot(n) ==> WhName(n) !in s[i]
  }

  /** The tests so far: branches from top to b, the first pos names of b. Names of branch
      free need no whiteout. */
  ghost predicate Tested(p: DInfo, s: seq<seq<string>>, whs: seq<WhEnt>, top: nat, free: int, b: nat, pos: nat)
    requires |s| == |p.h|
  {
    && b <= |s| && (b < |s| ==> pos <= |s[b]|)
    && (forall n :: n != "" ==>
                      (HasWh(whs, n) <==> exists i :: top <= i <= b && i < |s| && p.On(i) && Done(s, b, pos, WhName(n), i)))
    && (forall n, i: nat :: top <= i && i != free && i < |s| && p.On(i) && Done(s, b, pos, n, i) && !Mark(n) && !Dot(n) ==>
                              Covered(p, s, n, i))
    && (forall n :: n != "" && top < |s| && Done(s, b, pos, WhName(n), top) ==> WhEnt(n, top) in whs)
  }

  /** At rest they never do, except perhaps for the bare whiteout prefix. */
  lemma {:induction false} AtRestApart(br: seq<Branch>, dirs: Dirs, d: Dir, s: seq<seq<string>>)
    requires AtRest(br, dirs) && d in dirs && ReadsAll(br, dirs[d], d, s)
    requires forall i :: 0 <= i < |br| && Key(d, WH_PFX) in br[i].ents ==> Key(d, WhName(WH_PFX)) !in br[i].ents
    ensures Apart(dirs[d], s)
  {
    var p := dirs[d];
    forall i, n | 0 <= i < |s| && p.On(i) && n in s[i] && !Mark(n) && !Dot(n) ensures WhName(n) !in s[i] {
      assert Reads(br[i], d, s[i]) && NeverBoth(br[i]);
      var k := Key(d, n);
      assert Wh(k) == Key(d, WhName(n));
      assert k in br[i].ents && n != "";
      assert |WhName(n)| > 2;
      if Reserved(n) {
        assert n == n[..|WH_PFX|] == WH_PFX;
      }
    }
  }

  lemma {:induction false} NotedHas(whs: seq<WhEnt>, b: nat, name: string, n: string)
    ensures HasWh(Noted(whs, b, name), n) <==> HasWh(whs, n) || (Mark(name) && n == Stripped(name))
    ensures forall w :: w in whs ==> w in Noted(whs, b, name)
  {
    var r := Noted(whs, b, name);
    if HasWh(whs, n) {
      var x :| 0 <= x < |whs| && whs[x].name == n;
      assert r[x].name == n;
    }
    if |r| == |whs| + 1 {
      assert r[|whs|].name == Stripped(name);
    }
  }

  /** One more entry passes the test. */
  lemma {:induction false} TestStep(br: seq<Branch>, p: DInfo, d: Dir, s: seq<seq<string>>, whs: seq<WhEnt>,
                                    top: nat, free: int, b: nat, pos: nat)
    requires ReadsAll(br, p, d, s) && Apart(p, s) && Tested(p, s, whs, top, free, b, pos)
    requires top <= b < |s| && p.On(b) && pos < |s[b]|
    requires !Dot(s[b][pos]) && !Mark(s[b][pos]) && b != free ==> HasWh(whs, s[b][pos])
    ensures Tested(p, s, Noted(whs, b, s[b][pos]), top, free, b, pos + 1)
  {
    var name := s[b][pos];
    var whs' := Noted(whs, b, name);
    assert name in s[b] && name != "";
    forall n | n != ""
      ensures HasWh(whs', n) <==> exists i :: top <= i <= b && i < |s| && p.On(i) && Done(s, b, pos + 1, WhName(n), i)
    {
      NotedHas(whs, b, name, n);
      MarkStep(p, s, top, b, pos, n);
    }
    forall n, i: nat | top <= i && i != free && i < |s| && p.On(i) && Done(s, b, pos + 1, n, i) && !Mark(n) && !Dot(n)
      ensures Covered(p, s, n, i)
    {
      DoneStep(s, b, pos, n, i);
      if !Done(s, b, pos, n, i) {
        var c :| top <= c <= b && c < |s| && p.On(c) && Done(s, b, pos, WhName(n), c);
        assert c < b;
      }
    }
    forall n | n != "" && Done(s, b, pos + 1, WhName(n), top) ensures WhEnt(n, top) in whs' {
      DoneStep(s, b, pos, WhName(n), top);
      NotedHas(whs, b, name, n);
      if !Done(s, b, pos, WhName(n), top) {
        NotSeenYet(br, p, d, s, whs, top, free, pos, n);
        assert whs'[|whs|] == WhEnt(n, top);
      }
    }
  }

  /** The marks met after one more name of branch b. */
  lemma {:induction false} MarkStep(p: DInfo, s: seq<seq<string>>, top: nat, b: nat, pos: nat, n: string)
    requires |s| == |p.h| && top <= b < |s| && p.On(b) && pos < |s[b]| && n != ""
    ensures (exists i :: top <= i <= b && i < |s| && p.On(i) && Done(s, b, pos + 1, WhName(n), i)) <==>
            (exists i :: top <= i <= b && i < |s| && p.On(i) && Done(s, b, pos, WhName(n), i))
            || (Mark(s[b][pos]) && n == Stripped(s[b][pos]))
  {
    if Mark(s[b][pos]) {
      WhNameOfStripped(s[b][pos]);
    }
    forall i | top <= i <= b
      ensures Done(s, b, pos + 1, WhName(n), i) <==> Done(s, b, pos, WhName(n), i) || (i == b && WhName(n) == s[b][pos])
    {
      DoneStep(s, b, pos, WhName(n), i);
    }
  }

  /** On the topmost branch every whiteout is met for the first time. */
  lemma {:induction false} NotSeenYet(br: seq<Branch>, p: DInfo, d: Dir, s: seq<seq<string>>, whs: seq<WhEnt>,
                                      top: nat, free: int, pos: nat, n: string)
    requires ReadsAll(br, p, d, s) && Tested(p, s, whs, top, free, top, pos)
    requires top < |s| && p.On(top) && pos < |s[top]| && s[top][pos] == WhName(n) && n != ""
    ensures !HasWh(whs, n)
  {
    assert Reads(br[top], d, s[top]);
    assert WhName(n) !in s[top][..pos];
  }

  /** On to the next branch, or past one that does not hold the directory. */
  lemma {:induction false} TestNext(p: DInfo, s: seq<seq<string>>, whs: seq<WhEnt>, top: nat, free: int, b: nat, pos: nat)
    requires |s| == |p.h| && top <= b < |s| && Tested(p, s, whs, top, free, b, pos) && p.On(top)
    requires if p.On(b) then pos == |s[b]| else pos == 0
    ensures Tested(p, s, whs, top, free, b + 1, 0)
  {
    assert p.On(b) ==> s[b][..pos] == s[b];
    forall n: string, i: nat | i < |s| && p.On(i)
      ensures Done(s, b + 1, 0, n, i) <==> Done(s, b, pos, n, i)
    {
    }
    forall n | n != ""
      ensures HasWh(whs, n) <==> exists i :: top <= i <= b + 1 && i < |s| && p.On(i) && Done(s, b + 1, 0, WhName(n), i)
    {
      if HasWh(whs, n) {
        var i :| top <= i <= b && i < |s| && p.On(i) && Done(s, b, pos, WhName(n), i);
        assert Done(s, b + 1, 0, WhName(n), i);
      }
    }
  }

  /** do_test_empty: every entry of branch b passes, or the first that does not ends it. */
  method DoTestEmpty(br: seq<Branch>, p: DInfo, d: Dir, s: seq<seq<string>>, w: WhList, top: nat, free: int, b: nat)
    returns (err: int)
    requires ReadsAll(br, p, d, s) && Apart(p, s) && top <= b < |s| && p.On(b)
    requires DirOk(|br|, p) && top == p.bstart
    requires Tested(p, s, w.whs, top, free, b, 0)
    modifies w
    ensures err <= 0
    ensures err == 0 ==> Tested(p, s, w.whs, top, free, b + 1, 0)
    ensures err == -ENOTEMPTY ==> b != free && exists n :: Exposed(p, s, n, b)
    ensures !FAULTS ==> err in {0, -ENOTEMPTY}
  {
    hide Reads;
    err := QuietFault();
    if err != 0 {
      return;
    }
    var pos := 0;
    while pos < |s[b]|
      invariant 0 <= pos <= |s[b]|
      invariant Tested(p, s, w.whs, top, free, b, pos)
    {
      ghost var whs := w.whs;
      err := w.TestEmptyCb(b != free, b, s[b][pos]);
      if err == -ENOTEMPTY {
        assert s[b][pos] in s[b];
        Uncovered(br, p, d, s, whs, top, free, b, pos);
        assert Exposed(p, s, s[b][pos], b);
      }
      if err != 0 {
        return;
      }
      TestStep(br, p, d, s, whs, top, free, b, pos);
      pos := pos + 1;
    }
    TestNext(p, s, w.whs, top, free, b, |s[b]|);
  }

  /** A name whose whiteout has not been met is not covered. */
  lemma {:induction false} Uncovered(br: seq<Branch>, p: DInfo, d: Dir, s: seq<seq<string>>, whs: seq<WhEnt>,
                                     top: nat, free: int, b: nat, pos: nat)
    requires ReadsAll(br, p, d, s) && Tested(p, s, whs, top, free, b, pos)
    requires DirOk(|br|, p) && top == p.bstart
    requires top <= b < |s| && p.On(b) && pos < |s[b]| && !HasWh(whs, s[b][pos])
    ensures !Covered(p, s, s[b][pos], b)
  {
    var n := s[b][pos];
    assert n in s[b] && n != "";
    forall c | 0 <= c < b && p.On(c) ensures WhName(n) !in s[c] {
      assert Done(s, b, pos, WhName(n), c) <==> WhName(n) in s[c];
    }
  }

  /** Nothing tested yet. */
  lemma {:induction false} TestStart(p: DInfo, s: seq<seq<string>>, top: nat, free: int)
    requires |s| == |p.h| && top <= |s|
    ensures Tested(p, s, [], top, free, top, 0)
  {
  }

  /** When every branch has been tested. */
  lemma {:induction false} AllTested(br: seq<Branch>, p: DInfo, d: Dir, s: seq<seq<string>>, whs: seq<WhEnt>, free: int)
    requires DirOk(|br|, p) && ReadsAll(br, p, d, s) && Tested(p, s, whs, p.bstart, free, |s|, 0)
    ensures forall n, j :: Shown(p, s, n, j) && !Dot(n) ==> j == free
  {
    forall n, j: nat | Shown(p, s, n, j) && !Dot(n) && j != free ensures false {
      assert Done(s, |s|, 0, n, j);
      var c :| 0 <= c < j && p.On(c) && WhName(n) in s[c];
      assert Met(p, s, n, c);
    }
  }

  /** A name that is not covered by a whiteout is shown, on its branch or above. */
  lemma {:induction false} UncoveredShown(br: seq<Branch>, p: DInfo, d: Dir, s: seq<seq<string>>, n: string, b: nat)
    requires ReadsAll(br, p, d, s) && Exposed(p, s, n, b)
    ensures exists j :: 0 <= j <= b && Shown(p, s, n, j)
  {
    if exists c :: 0 <= c < b && Met(p, s, n, c) {
      var c :| 0 <= c < b && Met(p, s, n, c);
      assert n in s[c] && !Covered(p, s, n, c);
      UncoveredShown(br, p, d, s, n, c);
    } else {
      assert Shown(p, s, n, b);
    }
  }

  /** The branches from the given one to the last, one by one. */
  method TestFrom(br: seq<Branch>, p: DInfo, d: Dir, s: seq<seq<string>>, w: WhList, free: int, from: nat) returns (err: int)
    requires DirOk(|br|, p) && ReadsAll(br, p, d, s) && Apart(p, s) && p.bstart <= from <= |s|
    requires Tested(p, s, w.whs, p.bstart, free, from, 0)
    modifies w
    ensures err <= 0
    ensures err == 0 ==> Tested(p, s, w.whs, p.bstart, free, |s|, 0)
    ensures err == -ENOTEMPTY ==> exists n, j: nat :: from <= j && j != free && Exposed(p, s, n, j)
    ensures !FAULTS ==> err in {0, -ENOTEMPTY}
  {
    hide Covered, Exposed, Tested;
    err := 0;
    var bindex := from;
    while bindex < |s|
      invariant from <= bindex <= |s|
      invariant Tested(p, s, w.whs, p.bstart, free, bindex, 0)
    {
      if p.On(bindex) {
        err := DoTestEmpty(br, p, d, s, w, p.bstart, free, bindex);
        if err != 0 {
          return;
        }
      } else {
        TestNext(p, s, w.whs, p.bstart, free, bindex, 0);
      }
      bindex := bindex + 1;
    }
  }

  /** test_empty: unless something else fails, it succeeds iff the merged listing is only
      the two dots; and then it has noted every whiteout of the topmost branch there. */
  method TestEmpty(br: seq<Branch>, p: DInfo, d: Dir, s: seq<seq<string>>) returns (err: int, w: WhList)
    requires DirOk(|br|, p) && ReadsAll(br, p, d, s) && Apart(p, s)
    ensures err <= 0 && fresh(w)
    ensures err == 0 ==> EmptyListing(p, s) && Tested(p, s, w.whs, p.bstart, -1, |s|, 0)
    ensures err == -ENOTEMPTY ==> !EmptyListing(p, s)
    ensures !FAULTS ==> err == if EmptyListing(p, s) then 0 else -ENOTEMPTY
  {
    w := new WhList();
    TestStart(p, s, p.bstart, -1);
    err := TestFrom(br, p, d, s, w, -1, p.bstart);
    if err == 0 {
      AllTested(br, p, d, s, w.whs, -1);
    } else if err == -ENOTEMPTY {
      ghost var n, j: nat :| Exposed(p, s, n, j);
      UncoveredShown(br, p, d, s, n, j);
    }
  }

  /** au_test_empty_lower: unless something else fails, it succeeds iff every entry of a
      lower branch is covered by a whiteout; then the listing is the topmost branch's own. */
  method TestEmptyLower(br: seq<Branch>, p: DInfo, d: Dir, s: seq<seq<string>>) returns (err: int)
    requires DirOk(|br|, p) && ReadsAll(br, p, d, s) && Apart(p, s)
    ensures err <= 0
    ensures err == 0 ==> forall n, j: nat :: p.bstart < j ==> !Exposed(p, s, n, j)
    ensures err == 0 ==> forall n, j :: Shown(p, s, n, j) && !Dot(n) ==> j == p.bstart
    ensures err == -ENOTEMPTY ==> exists n, j: nat :: p.bstart < j && Exposed(p, s, n, j)
    ensures !FAULTS ==> err in {0, -ENOTEMPTY}
  {
    var w := new WhList();
    var bstart := p.bstart;
    TestStart(p, s, bstart, bstart);
    err := DoTestEmpty(br, p, d, s, w, bstart, bstart, bstart);
    if err == 0 {
      err := TestFrom(br, p, d, s, w, bstart, bstart + 1);
    }
    if err == 0 {
      AllTested(br, p, d, s, w.whs, bstart);
      forall n, j: nat | p.bstart < j && j < |s| && p.On(j) && n in s[j] && !Dot(n) && !Mark(n) ensures Covered(p, s, n, j) {
        assert Done(s, |s|, 0, n, j);
      }
    }
  }

  /** unlink_wh_name for every whiteout noted on branch b (del_wh_children). */
  method DelWhChildren(u: U.Union, b: nat, d: Dir, whs: seq<WhEnt>) returns (err: int)
    requires b < |u.br|
    modifies u`br, u`failed, u`lastErr
    ensures err <= 0 && OnlyAt(old(u.br), u.br, b) && old(u.failed) <= u.failed
    ensures u.br[b].ents.Keys <= old(u.br)[b].ents.Keys
    ensures forall k :: k in u.br[b].ents ==> u.br[b].ents[k] == old(u.br)[b].ents[k]
    ensures forall k :: k in old(u.br)[b].ents && k !in u.br[b].ents ==>
                              exists x :: 0 <= x < |whs| && k == Key(d, WhName(whs[x].name))
    ensures err == 0 ==> forall x :: 0 <= x < |whs| && whs[x].b == b ==> Key(d, WhName(whs[x].name)) !in u.br[b].ents
    // a directory under such a name is not removed
    ensures !FAULTS ==> (err == 0 <==> Unlinkable(old(u.br)[b].ents, b, d, whs))
  {
    err := 0;
    for i := 0 to |whs|
      invariant old(u.failed) <= u.failed
      invariant OnlyAt(old(u.br), u.br, b) && u.br[b].ents.Keys <= old(u.br)[b].ents.Keys && err == 0
      invariant forall k :: k in u.br[b].ents ==> u.br[b].ents[k] == old(u.br)[b].ents[k]
      invariant forall k :: k in old(u.br)[b].ents && k !in u.br[b].ents ==>
                              exists x :: 0 <= x < |whs| && k == Key(d, WhName(whs[x].name))
      invariant forall x :: 0 <= x < i && whs[x].b == b ==> Key(d, WhName(whs[x].name)) !in u.br[b].ents
      invariant forall k :: k in old(u.br)[b].ents && k !in u.br[b].ents ==> old(u.br)[b].ents[k].typ != DIR
      invariant Unlinkable(old(u.br)[b].ents, b, d, whs[..i])
    {
      if whs[i].b != b {
        continue;
      }
      var k := Key(d, WhName(whs[i].name));
      var slot;
      err, slot := u.Lkup(b, k);
      if err == 0 && slot.Pos? {
        err := u.VfsUnlink(b, k);
      }
      if err != 0 {
        return;
      }
    }
  }

  /** None of the names noted on branch b is a directory there. */
  ghost predicate Unlinkable(ents: map<Key, Ent>, b: nat, d: Dir, whs: seq<WhEnt>) {
    forall x :: 0 <= x < |whs| && whs[x].b == b && Key(d, WhName(whs[x].name)) in ents ==>
                  ents[Key(d, WhName(whs[x].name))].typ != DIR
  }

  /** No entry of directory g is a directory. */
  ghost predicate NoDirs(ents: map<Key, Ent>, g: Dir) {
    forall x :: x in ents && x.dir == g ==> ents[x].typ != DIR
  }

  /** All that directory g holds on branch t are whiteouts, and they are in the list. */
  ghost predicate AllNoted(ents: map<Key, Ent>, t: nat, g: Dir, whs: seq<WhEnt>) {
    forall x :: x in ents && x.dir == g ==> Mark(x.name) && WhEnt(Stripped(x.name), t) in whs
  }

  /** A successful test_empty has noted all that the topmost branch holds of the directory. */
  lemma {:induction false} TopmostNoted(br: seq<Branch>, p: DInfo, d: Dir, s: seq<seq<string>>, whs: seq<WhEnt>)
    requires DirOk(|br|, p) && ReadsAll(br, p, d, s) && Tested(p, s, whs, p.bstart, -1, |s|, 0)
    ensures AllNoted(br[p.bstart].ents, p.bstart, d, whs)
  {
    var top := p.bstart;
    forall k | k in br[top].ents && k.dir == d ensures Mark(k.name) && WhEnt(Stripped(k.name), top) in whs {
      var n := k.name;
      assert Reads(br[top], d, s[top]);
      assert k == Key(d, n) && n in s[top] && !Dot(n) && n != "";
      assert Done(s, |s|, 0, n, top);
      if Mark(n) {
        WhNameOfStripped(n);
      }
    }
  }

  /** After a successful test_empty, a successful del_wh_children on the topmost branch
      leaves its lower directory with no entry at all. */
  lemma {:induction false} TopmostEmptied(br: seq<Branch>, p: DInfo, d: Dir, s: seq<seq<string>>, whs: seq<WhEnt>, br': seq<Branch>)
    requires DirOk(|br|, p) && ReadsAll(br, p, d, s) && Tested(p, s, whs, p.bstart, -1, |s|, 0)
    requires |br'| == |br| && br'[p.bstart].ents.Keys <= br[p.bstart].ents.Keys
    requires forall x :: 0 <= x < |whs| && whs[x].b == p.bstart ==> Key(d, WhName(whs[x].name)) !in br'[p.bstart].ents
    ensures forall k :: k in br'[p.bstart].ents ==> k.dir != d
  {
    TopmostNoted(br, p, d, s, whs);
    forall k | k in br[p.bstart].ents && k.dir == d ensures k !in br'[p.bstart].ents {
      var x :| 0 <= x < |whs| && whs[x] == WhEnt(Stripped(k.name), p.bstart);
      WhNameOfStripped(k.name);
    }
  }
}
