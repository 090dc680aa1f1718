/** super.c: bringing every cached directory to the new generation at remount. */
module RefreshDirs {
  import opened Names
  import opened Util
  import opened Dcsub

  /** The generation of every cached dentry (di_generation). */
  class Dcache {
    var gen: map<nat, int>

    constructor (gen: map<nat, int>)
      ensures this.gen == gen
    {
      this.gen := gen;
    }

    predicate At(id: nat, sgen: int)
      reads this
    {
      id in gen && gen[id] == sgen
    }

    /** do_refresh_dir: au_refresh_hdentry, which wants the parent at the new generation and
        updates the dentry's, and au_refresh_hinode; either can fail. */
    method DoRefreshDir(d: Item, sgen: int) returns (err: int)
      requires At(d.parent, sgen)
      modifies this
      ensures err <= 0 && (err == 0 ==> At(d.id, sgen)) && (!FAULTS ==> err == 0)
      ensures gen == old(gen) || gen == old(gen)[d.id := sgen]
    {
      err := LowerFault();
      if err == 0 {
        gen := gen[d.id := sgen];
        err := LowerFault();
      }
    }

    /** The loops of refresh_dir over the pages: a directory is refreshed strictly after its
        parent, whatever fails. */
    method RefreshPages(pages: seq<seq<Item>>, root: nat, sgen: int) returns (err: int)
      requires At(root, sgen) && Ordered(Flat(pages), {root})
      modifies this
      ensures err <= 0 && (err == 0 ==> forall x :: x in Flat(pages) ==> At(x.id, sgen))
      ensures !FAULTS ==> err == 0
      ensures forall id :: id !in IdsOf(Flat(pages)) && id in old(gen) ==> id in gen && gen[id] == old(gen)[id]
      ensures forall id :: old(At(id, sgen)) ==> At(id, sgen)
    {
      hide Flat, Ordered, IdsOf;
      err := 0;
      FlatPrefix(pages, 0);
      ghost var done: seq<Item> := [];
      var i := 0;
      while err == 0 && i < |pages|
        invariant i <= |pages| && err <= 0 && At(root, sgen) && (!FAULTS ==> err == 0)
        invariant err == 0 ==> done == Flat(pages[..i]) && AllAt(done, sgen)
        invariant Others(old(gen), gen, IdsOf(Flat(pages)), sgen)
      {
        var page := pages[i];
        FlatPrefix(pages, i);
        assert done + page[..0] == done;
        var j := 0;
        while err == 0 && j < |page|
          invariant j <= |page| && err <= 0 && At(root, sgen) && (!FAULTS ==> err == 0)
          invariant err == 0 ==> AllAt(done + page[..j], sgen)
          invariant Others(old(gen), gen, IdsOf(Flat(pages)), sgen)
        {
          var d := page[j];
          ParentDone(Flat(pages), done, page, j, root);
          if !At(d.id, sgen) {
            err := DoRefreshDir(d, sgen);
          }
          assert done + page[..j + 1] == (done + page[..j]) + [d];
          j := j + 1;
        }
        assert page[..|page|] == page;
        done := done + page;
        i := i + 1;
      }
      assert pages[..|pages|] == pages;
    }

    ghost predicate AllAt(s: seq<Item>, sgen: int)
      reads this
    {
      forall x :: x in s ==> At(x.id, sgen)
    }

    /** refresh_dir: collect, then refresh. Without an error every cached directory below the root
        is at the new generation; in any case no reference to any of them is kept. */
    method RefreshDir(root: Node, sgen: int) returns (err: int, ghost kept: multiset<nat>)
      requires At(root.id, sgen) && root.isRoot && WellLinked(root)
      modifies this
      ensures err == 0 ==> forall x :: x in Preorder(root) ==> At(x.id, sgen)
      ensures kept == multiset{}
      ensures !FAULTS ==> err == 0
      ensures forall id :: id !in IdsOf(Preorder(root)) && id in old(gen) ==> id in gen && gen[id] == old(gen)[id]
    {
      hide Emit, Preorder, Flat, Ordered, WellLinked;
      var dpages := new Dpages();
      err := DcsubPages(dpages, root);
      forall x: Item ensures x in Emit(root) <==> x in Preorder(root) {
        SameSet(root, x);
      }
      if err == 0 {
        EmitOrdered(root, {root.id});
        err := RefreshPages(dpages.pages, root.id, sgen);
      }
      dpages.Free();
      kept := dpages.held;
    }
  }

  /** Only collected dentries changed, and only to the new generation. */
  ghost predicate Others(gen0: map<nat, int>, gen: map<nat, int>, ids: set<nat>, sgen: int) {
    && (forall id :: id !in ids && id in gen0 ==> id in gen && gen[id] == gen0[id])
    && (forall id :: id in gen0 && gen0[id] == sgen ==> id in gen && gen[id] == sgen)
  }

  lemma {:induction false} FlatPrefix(pages: seq<seq<Item>>, i: nat)
    requires i <= |pages|
    ensures Flat(pages[..i]) <= Flat(pages)
    ensures i < |pages| ==> Flat(pages[..i + 1]) == Flat(pages[..i]) + pages[i] && Flat(pages[..i]) + pages[i] <= Flat(pages)
    ensures i == 0 ==> Flat(pages[..i]) == []
    decreases |pages|
  {
    if i < |pages| {
      assert pages[..i + 1][..i] == pages[..i];
      var front := pages[..|pages| - 1];
      FlatPrefix(front, i);
      assert front[..i] == pages[..i];
      if i + 1 == |pages| {
        assert pages[..i + 1] == pages;
      }
    } else {
      assert pages[..i] == pages;
    }
  }

  /** In an ordered list a parent was met before. */
  lemma {:induction false} ParentDone(all: seq<Item>, done: seq<Item>, page: seq<Item>, j: nat, root: nat)
    requires Ordered(all, {root}) && done + page <= all && j < |page|
    ensures page[j].parent == root || exists x :: x in done + page[..j] && x.id == page[j].parent
    ensures page[j].id in IdsOf(all)
  {
    var k := |done| + j;
    assert all[k] == (done + page)[k] == page[j];
    assert all[..k] == done + page[..j];
    assert page[j] in all;
  }
}
