/** dcsub.c: the walk over the cached dentries below a directory, into pages. */
module Dcsub {
  import opened Names
  import opened Util

  // PAGE_SIZE / sizeof(struct dentry *)
  const PAGE_DENTRIES: nat := 512

  /** A cached dentry: its own and its parent's identity, whether it is positive, referenced, on
      this super block, wanted by the caller's test and the root, and its children (d_subdirs). */
  datatype Node = Node(id: nat, parent: nat, positive: bool, counted: bool, sameSb: bool, wanted: bool, isRoot: bool,
                       sub: seq<Node>)

  /** What the walk hands out. */
  datatype Item = Item(id: nat, parent: nat)

  /** The test before an append, of a dentry with children and of one without. */
  predicate Eligible(n: Node) {
    n.sameSb && !n.isRoot && n.counted && n.positive && n.wanted
  }

  function Own(n: Node): seq<Item> {
    if Eligible(n) then [Item(n.id, n.parent)] else []
  }

  /** The reference: everything at n and below, a negative dentry hiding what is below it. */
  function Preorder(n: Node): seq<Item>
    decreases n, |n.sub| + 1
  {
    Own(n) + PreorderFrom(n, 0)
  }

  function PreorderFrom(n: Node, i: nat): seq<Item>
    requires i <= |n.sub|
    decreases n, |n.sub| - i
  {
    if i == |n.sub| then []
    else (if n.sub[i].positive then Preorder(n.sub[i]) else []) + PreorderFrom(n, i + 1)
  }

  /** What the walk appends: a dentry with children once on the way down, and its parent again
      each time the walk comes back up to it. */
  function Emit(n: Node): seq<Item>
    decreases n, |n.sub| + 1
  {
    Own(n) + EmitFrom(n, 0)
  }

  function EmitFrom(n: Node, i: nat): seq<Item>
    requires i <= |n.sub|
    decreases n, |n.sub| - i
  {
    if i == |n.sub| then []
    else if !n.sub[i].positive then EmitFrom(n, i + 1)
    else if n.sub[i].sub != [] then Emit(n.sub[i]) + (Own(n) + EmitFrom(n, i + 1))
    else Own(n.sub[i]) + EmitFrom(n, i + 1)
  }

  /** The steps the walk takes for what is below n, from child i on. */
  function Work(n: Node, i: nat): nat
    requires i <= |n.sub|
    decreases n, |n.sub| - i
  {
    if i == |n.sub| then 0
    else 1 + (if n.sub[i].sub != [] then 1 + Work(n.sub[i], 0) else 0) + Work(n, i + 1)
  }

  /** this_parent is reached from the root by child numbers. */
  predicate PathOk(n: Node, path: seq<nat>)
    decreases path
  {
    path == [] || (path[0] < |n.sub| && PathOk(n.sub[path[0]], path[1..]))
  }

  function At(n: Node, path: seq<nat>): Node
    requires PathOk(n, path)
    decreases path
  {
    if path == [] then n else At(n.sub[path[0]], path[1..])
  }

  /** What is still to come at child next of this_parent. */
  function Todo(n: Node, path: seq<nat>, next: nat): seq<Item>
    requires PathOk(n, path) && next <= |At(n, path).sub|
    decreases path
  {
    if path == [] then EmitFrom(n, next)
    else Todo(n.sub[path[0]], path[1..], next) + (Own(n) + EmitFrom(n, path[0] + 1))
  }

  function TodoWork(n: Node, path: seq<nat>, next: nat): nat
    requires PathOk(n, path) && next <= |At(n, path).sub|
    decreases path
  {
    if path == [] then Work(n, next)
    else TodoWork(n.sub[path[0]], path[1..], next) + 1 + Work(n, path[0] + 1)
  }

  lemma {:induction false} Assoc(a: seq<Item>, b: seq<Item>, c: seq<Item>)
    ensures (a + b) + c == a + (b + c)
  {
  }

  lemma {:induction false} DescendFirst(n: Node, next: nat)
    requires next < |n.sub| && n.sub[next].positive && n.sub[next].sub != []
    ensures PathOk(n, [next]) && At(n, [next]) == n.sub[next]
    ensures Todo(n, [], next) == Own(n.sub[next]) + Todo(n, [next], 0)
    ensures TodoWork(n, [next], 0) < TodoWork(n, [], next)
  {
    hide Own;
    var c := n.sub[next];
    assert [next][1..] == [];
    var rest := Own(n) + EmitFrom(n, next + 1);
    assert Todo(n, [next], 0) == EmitFrom(c, 0) + rest;
    assert Emit(c) == Own(c) + EmitFrom(c, 0);
    assert Todo(n, [], next) == Emit(c) + rest;
    Assoc(Own(c), EmitFrom(c, 0), rest);
  }

  /** Going down into a child that has children. */
  lemma {:induction false} Descend(n: Node, path: seq<nat>, next: nat)
    requires PathOk(n, path) && next < |At(n, path).sub| && At(n, path).sub[next].positive && At(n, path).sub[next].sub != []
    ensures PathOk(n, path + [next]) && At(n, path + [next]) == At(n, path).sub[next]
    ensures Todo(n, path, next) == Own(At(n, path + [next])) + Todo(n, path + [next], 0)
    ensures TodoWork(n, path + [next], 0) < TodoWork(n, path, next)
    decreases path
  {
    if path == [] {
      DescendFirst(n, next);
      assert path + [next] == [next];
    } else {
      Descend(n.sub[path[0]], path[1..], next);
      assert (path + [next])[1..] == path[1..] + [next];
    }
  }

  /** Coming back up. */
  lemma {:induction false} Ascend(n: Node, path: seq<nat>)
    requires PathOk(n, path) && path != []
    ensures var up := path[..|path| - 1]; var i := path[|path| - 1];
            PathOk(n, up) && i < |At(n, up).sub| && At(n, path) == At(n, up).sub[i]
    ensures var up := path[..|path| - 1]; var i := path[|path| - 1];
            Todo(n, path, |At(n, path).sub|) == Own(At(n, up)) + Todo(n, up, i + 1)
    ensures var up := path[..|path| - 1]; var i := path[|path| - 1];
            TodoWork(n, up, i + 1) < TodoWork(n, path, |At(n, path).sub|)
    decreases path
  {
    hide Own, Work;
    if |path| == 1 {
      assert path[1..] == [];
    } else {
      Ascend(n.sub[path[0]], path[1..]);
      assert path[1..][..|path| - 2] == path[..|path| - 1][1..];
    }
  }

  /** A child the walk does not go down into. */
  lemma {:induction false} Pass(n: Node, path: seq<nat>, next: nat)
    requires PathOk(n, path) && next < |At(n, path).sub|
    requires var c := At(n, path).sub[next]; !c.positive || c.sub == []
    ensures var c := At(n, path).sub[next];
            Todo(n, path, next) == (if c.positive then Own(c) else []) + Todo(n, path, next + 1)
    ensures TodoWork(n, path, next + 1) < TodoWork(n, path, next)
    decreases path
  {
    if path != [] {
      Pass(n.sub[path[0]], path[1..], next);
    }
  }

  /** The dentries collected, which hold one reference each. */
  function Refs(items: seq<Item>): multiset<nat> {
    if items == [] then multiset{} else Refs(items[..|items| - 1]) + multiset{items[|items| - 1].id}
  }

  /** One reference for each time a dentry was collected. */
  lemma {:induction false} RefsAre(items: seq<Item>)
    ensures Refs(items) == multiset(seq(|items|, k requires 0 <= k < |items| => items[k].id))
  {
    if items != [] {
      var ids := seq(|items|, k requires 0 <= k < |items| => items[k].id);
      RefsAre(items[..|items| - 1]);
      assert ids[..|items| - 1] == seq(|items| - 1, k requires 0 <= k < |items| - 1 => items[..|items| - 1][k].id);
      assert ids == ids[..|items| - 1] + [items[|items| - 1].id];
    }
  }

  class Dpages {
    var pages: seq<seq<Item>>
    // d_count held on behalf of these pages
    var held: multiset<nat>

    ghost predicate Valid()
      reads this
    {
      && pages != [] && held == Refs(Flat(pages))
      && (forall i :: 0 <= i < |pages| ==> |pages[i]| <= PAGE_DENTRIES)
      && (forall i :: 0 <= i < |pages| - 1 ==> |pages[i]| == PAGE_DENTRIES)
    }

    /** au_dpages_init. */
    constructor ()
      ensures Valid() && Flat(pages) == []
    {
      pages := [[]];
      held := multiset{};
      new;
      assert pages[..0] == [];
      assert Flat(pages[..0]) == [];
    }

    /** au_dpages_append: a new page only when the last is full. */
    method Append(d: Item) returns (err: int)
      requires Valid()
      modifies this
      ensures Valid() && (err == 0 || (FAULTS && err == -ENOMEM))
      ensures Flat(pages) == old(Flat(pages)) + if err == 0 then [d] else []
    {
      hide Flat, Refs;
      if |pages[|pages| - 1]| >= PAGE_DENTRIES {
        err := LowerFault();
        if err != 0 {
          return -ENOMEM;
        }
        FlatPage(pages);
        pages := pages + [[]];
      }
      FlatItem(pages, d);
      pages := pages[|pages| - 1 := pages[|pages| - 1] + [d]];
      held := held + multiset{d.id};
      err := 0;
    }

    /** au_dpage_free. */
    method FreePage(page: seq<Item>, ghost before: seq<Item>)
      requires held == Refs(before + page)
      modifies this`held
      ensures held == Refs(before)
    {
      hide Refs;
      var j := |page|;
      assert page[..j] == page;
      while j > 0
        invariant 0 <= j <= |page| && held == Refs(before + page[..j])
      {
        assert before + page[..j] == (before + page[..j - 1]) + [page[j - 1]];
        RefsItem(before + page[..j - 1], page[j - 1]);
        held := held - multiset{page[j - 1].id};
        j := j - 1;
      }
      assert before + page[..0] == before;
    }

    /** au_dpages_free: every reference taken is given back. */
    method Free()
      requires Valid()
      modifies this
      ensures held == multiset{}
    {
      hide Flat, Refs;
      var i := |pages|;
      assert pages[..i] == pages;
      while i > 0
        invariant 0 <= i <= |pages| && pages == old(pages) && held == Refs(Flat(pages[..i]))
      {
        FlatFront(pages, i);
        FreePage(pages[i - 1], Flat(pages[..i - 1]));
        i := i - 1;
      }
      NoRefs(pages);
    }
  }

  lemma {:induction false} FlatFront(pages: seq<seq<Item>>, i: nat)
    requires 0 < i <= |pages|
    ensures Flat(pages[..i]) == Flat(pages[..i - 1]) + pages[i - 1]
  {
    assert pages[..i][..i - 1] == pages[..i - 1];
  }

  lemma {:induction false} NoRefs(pages: seq<seq<Item>>)
    ensures Refs(Flat(pages[..0])) == multiset{}
  {
    assert pages[..0] == [];
  }

  lemma {:induction false} FlatPage(pages: seq<seq<Item>>)
    ensures Flat(pages + [[]]) == Flat(pages)
  {
    assert (pages + [[]])[..|pages|] == pages;
  }

  lemma {:induction false} RefsItem(items: seq<Item>, d: Item)
    ensures Refs(items + [d]) == Refs(items) + multiset{d.id}
  {
    assert (items + [d])[..|items|] == items;
  }

  lemma {:induction false} FlatItem(pages: seq<seq<Item>>, d: Item)
    requires pages != []
    ensures var n := |pages| - 1; Flat(pages[n := pages[n] + [d]]) == Flat(pages) + [d]
    ensures Refs(Flat(pages) + [d]) == Refs(Flat(pages)) + multiset{d.id}
  {
    var n := |pages| - 1;
    assert pages[n := pages[n] + [d]][..n] == pages[..n];
    RefsItem(Flat(pages), d);
  }

  /** au_dcsub_pages: the walk with this_parent and next only; without an error it appends
      exactly what the recursive Emit says, with one a beginning of it. */
  method DcsubPages(dp: Dpages, root: Node) returns (err: int)
    requires dp.Valid() && Flat(dp.pages) == []
    modifies dp
    ensures dp.Valid() && (err == 0 || (FAULTS && err == -ENOMEM))
    ensures err == 0 ==> Flat(dp.pages) == Emit(root)
    ensures err != 0 ==> Flat(dp.pages) <= Emit(root)
  {
    hide Own, Emit, EmitFrom, Work, Flat, Refs, Todo, TodoWork;
    EmitStart(root);
    err := 0;
    var path: seq<nat> := [];
    var next: nat := 0;
    assert At(root, path) == root;
    while true
      invariant dp.Valid() && PathOk(root, path) && next <= |At(root, path).sub|
      invariant Flat(dp.pages) + (Own(At(root, path)) + Todo(root, path, next)) == Emit(root)
      decreases TodoWork(root, path, next)
    {
      var thisParent := At(root, path);
      Assoc(Flat(dp.pages), Own(thisParent), Todo(root, path, next));
      err := AppendOwn(dp, thisParent);
      if err != 0 {
        return;
      }
      var down;
      err, next, down := Scan(dp, root, path, next);
      if err != 0 {
        return;
      }
      if down {
        Descend(root, path, next);
        path := path + [next];
        next := 0;
        continue;
      }
      if path != [] {
        Ascend(root, path);
        next := path[|path| - 1] + 1;
        path := path[..|path| - 1];
        continue;
      }
      break;
    }
    TodoEnd(root);
  }

  /** The inner loop: children without children of their own, up to one that has some. */
  method Scan(dp: Dpages, root: Node, path: seq<nat>, next0: nat) returns (err: int, next: nat, down: bool)
    requires dp.Valid() && PathOk(root, path) && next0 <= |At(root, path).sub|
    requires Flat(dp.pages) + Todo(root, path, next0) == Emit(root)
    modifies dp
    ensures dp.Valid() && (err == 0 || (FAULTS && err == -ENOMEM)) && Flat(dp.pages) <= Emit(root)
    ensures err == 0 ==> next <= |At(root, path).sub| && TodoWork(root, path, next) <= TodoWork(root, path, next0)
    ensures err == 0 ==> Flat(dp.pages) + Todo(root, path, next) == Emit(root)
    ensures err == 0 ==> down == (next < |At(root, path).sub|)
    ensures err == 0 && down ==> At(root, path).sub[next].positive && At(root, path).sub[next].sub != []
  {
    hide Own, Emit, EmitFrom, Work, Flat, Refs, Todo, TodoWork, PathOk, At;
    var thisParent := At(root, path);
    err, next := 0, next0;
    while next < |thisParent.sub|
      invariant dp.Valid() && err == 0 && next <= |thisParent.sub|
      invariant TodoWork(root, path, next) <= TodoWork(root, path, next0)
      invariant Flat(dp.pages) + Todo(root, path, next) == Emit(root)
    {
      var dentry := thisParent.sub[next];
      if dentry.positive && dentry.sub != [] {
        return err, next, true;
      }
      Pass(root, path, next);
      if dentry.positive {
        Assoc(Flat(dp.pages), Own(dentry), Todo(root, path, next + 1));
        err := AppendOwn(dp, dentry);
        if err != 0 {
          return err, next, false;
        }
      }
      next := next + 1;
    }
    return err, next, false;
  }

  lemma {:induction false} EmitStart(n: Node)
    ensures PathOk(n, []) && At(n, []) == n && Emit(n) == Own(n) + Todo(n, [], 0)
  {
  }

  lemma {:induction false} TodoEnd(n: Node)
    ensures Todo(n, [], |n.sub|) == []
  {
  }

  /** The test, and the append it guards. */
  method AppendOwn(dp: Dpages, n: Node) returns (err: int)
    requires dp.Valid()
    modifies dp
    ensures dp.Valid() && (err == 0 || (FAULTS && err == -ENOMEM))
    ensures Flat(dp.pages) == old(Flat(dp.pages)) + if err == 0 then Own(n) else []
  {
    err := 0;
    if n.sameSb && !n.isRoot && n.counted && n.positive && n.wanted {
      err := dp.Append(Item(n.id, n.parent));
    }
  }

  /** The walk collects the same dentries as the recursive preorder. */
  lemma {:induction false} SameSet(n: Node, x: Item)
    ensures x in Emit(n) <==> x in Preorder(n)
    decreases n, |n.sub| + 1
  {
    hide Own;
    SameSetFrom(n, 0, x);
  }

  lemma {:induction false} SameSetFrom(n: Node, i: nat, x: Item)
    requires i <= |n.sub|
    ensures x in Own(n) + EmitFrom(n, i) <==> x in Own(n) + PreorderFrom(n, i)
    decreases n, |n.sub| - i
  {
    hide Own;
    if i < |n.sub| {
      SameSetFrom(n, i + 1, x);
      SameSet(n.sub[i], x);
      if n.sub[i].sub == [] {
        LeafIsOwn(n.sub[i]);
      }
    }
  }

  lemma {:induction false} LeafIsOwn(n: Node)
    requires n.sub == []
    ensures Emit(n) == Own(n)
  {
  }

  /** Below the root the tree is linked as d_parent says, and a dentry with children is one the
      caller wants: directories are, and their children hold references to them. */
  predicate WellLinked(n: Node)
    decreases n
  {
    forall i :: 0 <= i < |n.sub| ==>
      && n.sub[i].parent == n.id && WellLinked(n.sub[i])
      && (n.sub[i].positive && n.sub[i].sub != [] ==> Eligible(n.sub[i]))
  }

  function IdsOf(s: seq<Item>): set<nat> {
    set x | x in s :: x.id
  }

  /** Each item's parent is known from the start or comes earlier. */
  ghost predicate Ordered(s: seq<Item>, known: set<nat>) {
    forall k :: 0 <= k < |s| ==> s[k].parent in known + IdsOf(s[..k])
  }

  lemma {:induction false} OrderedConcat(s: seq<Item>, t: seq<Item>, known: set<nat>)
    requires Ordered(s, known) && Ordered(t, known + IdsOf(s))
    ensures Ordered(s + t, known)
  {
    var u := s + t;
    forall k | 0 <= k < |u| ensures u[k].parent in known + IdsOf(u[..k]) {
      if k < |s| {
        assert u[..k] == s[..k];
      } else {
        assert u[..k] == s + t[..k - |s|];
        assert IdsOf(u[..k]) == IdsOf(s) + IdsOf(t[..k - |s|]);
      }
    }
  }

  lemma {:induction false} OrderedMore(s: seq<Item>, known: set<nat>, more: set<nat>)
    requires Ordered(s, known) && known <= more
    ensures Ordered(s, more)
  {
  }

  /** A dentry is only handed out after its parent was. */
  lemma {:induction false} EmitOrdered(n: Node, known: set<nat>)
    requires WellLinked(n) && ((Eligible(n) && n.parent in known) || (n.isRoot && n.id in known))
    ensures Ordered(Emit(n), known)
    decreases n, |n.sub| + 1
  {
    OwnOrdered(n, known);
    EmitFromOrdered(n, 0, known + IdsOf(Own(n)));
    OrderedConcat(Own(n), EmitFrom(n, 0), known);
  }

  lemma {:induction false} OwnOrdered(n: Node, known: set<nat>)
    requires n.isRoot || n.parent in known
    ensures Ordered(Own(n), known) && (Eligible(n) ==> n.id in IdsOf(Own(n)))
  {
    if Eligible(n) {
      assert Item(n.id, n.parent) in Own(n);
    }
  }

  lemma {:induction false} EmitFromOrdered(n: Node, i: nat, known: set<nat>)
    requires WellLinked(n) && i <= |n.sub| && n.id in known && (n.isRoot || n.parent in known)
    ensures Ordered(EmitFrom(n, i), known)
    decreases n, |n.sub| - i
  {
    hide Own;
    if i < |n.sub| {
      var c := n.sub[i];
      EmitFromOrdered(n, i + 1, known);
      if c.positive && c.sub != [] {
        EmitOrdered(c, known);
        OwnOrdered(n, known);
        OrderedMore(EmitFrom(n, i + 1), known, known + IdsOf(Own(n)));
        OrderedConcat(Own(n), EmitFrom(n, i + 1), known);
        OrderedMore(Own(n) + EmitFrom(n, i + 1), known, known + IdsOf(Emit(c)));
        OrderedConcat(Emit(c), Own(n) + EmitFrom(n, i + 1), known);
      } else if c.positive {
        OwnOrdered(c, known);
        OrderedMore(EmitFrom(n, i + 1), known, known + IdsOf(Own(c)));
        OrderedConcat(Own(c), EmitFrom(n, i + 1), known);
      }
    }
  }

  /** No dentry on the way is negative. */
  predicate Lit(n: Node, path: seq<nat>)
    requires PathOk(n, path)
    decreases path
  {
    path == [] || (n.sub[path[0]].positive && Lit(n.sub[path[0]], path[1..]))
  }

  /** x is the positive dentry m, in use, on this super block and not its root, and the caller's test
      wants it. */
  predicate Passes(m: Node, x: Item) {
    x == Item(m.id, m.parent) && m.positive && m.counted && m.sameSb && !m.isRoot && m.wanted
  }

  /** There is a way from n to a dentry that passes as x. */
  ghost predicate Reached(n: Node, x: Item) {
    exists path: seq<nat> :: PathOk(n, path) && Lit(n, path) && Passes(At(n, path), x)
  }

  /** What is collected: exactly the dentries that pass the test and that no negative dentry hides. */
  lemma {:induction false} Collected(n: Node, x: Item)
    ensures x in Preorder(n) <==> Reached(n, x)
    ensures x in Emit(n) <==> Reached(n, x)
  {
    SameSet(n, x);
    if x in Preorder(n) {
      var path := WayTo(n, x);
    }
    if path: seq<nat> :| PathOk(n, path) && Lit(n, path) && Passes(At(n, path), x) {
      AtTheEnd(n, path, x);
    }
  }

  lemma {:induction false} WayTo(n: Node, x: Item) returns (path: seq<nat>)
    requires x in Preorder(n)
    ensures PathOk(n, path) && Lit(n, path) && Passes(At(n, path), x)
    decreases n, |n.sub| + 1
  {
    if x in Own(n) {
      path := [];
    } else {
      path := WayFrom(n, 0, x);
    }
  }

  lemma {:induction false} WayFrom(n: Node, i: nat, x: Item) returns (path: seq<nat>)
    requires i <= |n.sub| && x in PreorderFrom(n, i)
    ensures PathOk(n, path) && Lit(n, path) && Passes(At(n, path), x)
    decreases n, |n.sub| - i
  {
    if n.sub[i].positive && x in Preorder(n.sub[i]) {
      path := WayTo(n.sub[i], x);
      path := [i] + path;
      assert path[1..] == path[1..][0..];
    } else {
      path := WayFrom(n, i + 1, x);
    }
  }

  lemma {:induction false} AtTheEnd(n: Node, path: seq<nat>, x: Item)
    requires PathOk(n, path) && Lit(n, path) && Passes(At(n, path), x)
    ensures x in Preorder(n)
    decreases path
  {
    if path != [] {
      AtTheEnd(n.sub[path[0]], path[1..], x);
      InFrom(n, 0, path[0], x);
    }
  }

  lemma {:induction false} InFrom(n: Node, i: nat, j: nat, x: Item)
    requires i <= j < |n.sub| && n.sub[j].positive && x in Preorder(n.sub[j])
    ensures x in PreorderFrom(n, i)
    decreases j - i
  {
    if i < j {
      InFrom(n, i + 1, j, x);
    }
  }

  /** A dentry that is collected is collected once, and once more for each time the walk comes back
      to it: for each child with children. */
  function Returns(n: Node): seq<Item>
    decreases n, |n.sub| + 1
  {
    ReturnsFrom(n, 0)
  }

  function ReturnsFrom(n: Node, i: nat): seq<Item>
    requires i <= |n.sub|
    decreases n, |n.sub| - i
  {
    if i == |n.sub| then []
    else
      (if n.sub[i].positive && n.sub[i].sub != [] then Returns(n.sub[i]) + Own(n) else []) + ReturnsFrom(n, i + 1)
  }

  lemma {:induction false} EmitTimes(n: Node)
    ensures multiset(Emit(n)) == multiset(Preorder(n)) + multiset(Returns(n))
    decreases n, |n.sub| + 1
  {
    EmitTimesFrom(n, 0);
  }

  lemma {:induction false} EmitTimesFrom(n: Node, i: nat)
    requires i <= |n.sub|
    ensures multiset(EmitFrom(n, i)) == multiset(PreorderFrom(n, i)) + multiset(ReturnsFrom(n, i))
    decreases n, |n.sub| - i
  {
    hide Own, Emit, EmitFrom, Preorder, PreorderFrom, Returns, ReturnsFrom;
    FromStep(n, i);
    if i < |n.sub| {
      EmitTimesFrom(n, i + 1);
      var c := n.sub[i];
      if c.positive && c.sub != [] {
        EmitTimes(c);
        TimesAdd(Emit(c), Own(n), EmitFrom(n, i + 1), Preorder(c), PreorderFrom(n, i + 1), Returns(c), ReturnsFrom(n, i + 1));
      }
    }
  }

  lemma {:induction false} FromStep(n: Node, i: nat)
    requires i <= |n.sub|
    ensures if i == |n.sub| then EmitFrom(n, i) == PreorderFrom(n, i) == ReturnsFrom(n, i) == []
            else
              var c, e, p, r := n.sub[i], EmitFrom(n, i + 1), PreorderFrom(n, i + 1), ReturnsFrom(n, i + 1);
              if c.positive && c.sub != [] then
                && EmitFrom(n, i) == Emit(c) + (Own(n) + e) && PreorderFrom(n, i) == Preorder(c) + p
                && ReturnsFrom(n, i) == (Returns(c) + Own(n)) + r
              else
                var own := if c.positive then Own(c) else [];
                EmitFrom(n, i) == own + e && PreorderFrom(n, i) == own + p && ReturnsFrom(n, i) == r
  {
    hide Own;
    if i < |n.sub| && n.sub[i].sub == [] {
      assert Preorder(n.sub[i]) == Own(n.sub[i]) + PreorderFrom(n.sub[i], 0);
    }
  }

  lemma {:induction false} TimesAdd(ec: seq<Item>, own: seq<Item>, e: seq<Item>, pc: seq<Item>, p: seq<Item>, rc: seq<Item>, r: seq<Item>)
    requires multiset(ec) == multiset(pc) + multiset(rc) && multiset(e) == multiset(p) + multiset(r)
    ensures multiset(ec + (own + e)) == multiset(pc + p) + multiset((rc + own) + r)
  {
  }
}
