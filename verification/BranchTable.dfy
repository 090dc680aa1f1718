/** branch.c: adding and deleting branches, in three parallel arrays. */
module BranchTable {
  import opened Names
  import opened Slots
  import opened Util
  import Stack
  import I = BranchIds

  /** A lower directory: its file system and its path from that file system's root. */
  datatype Lower = Lower(fs: nat, path: seq<string>)

  /** d_parent; the root of a file system is its own parent. */
  function Parent(d: Lower): Lower {
    if d.path == [] then d else Lower(d.fs, d.path[..|d.path| - 1])
  }

  /** a is b or above it. */
  predicate Above(a: Lower, b: Lower) {
    a.fs == b.fs && a.path <= b.path
  }

  /** do_is_overlap: climb from d1, looking for d2. */
  method DoIsOverlap(d1: Lower, d2: Lower) returns (r: bool)
    ensures r <==> Above(d2, d1)
  {
    var d := d1;
    while true
      invariant Above(d, d1) && (Above(d2, d1) <==> Above(d2, d))
      decreases |d.path|
    {
      if d == d2 {
        return true;
      }
      ClimbOver(d, d2);
      d := Parent(d);
      if d.path == [] {
        break;
      }
    }
    return d == d2;
  }

  lemma {:induction false} ClimbOver(d: Lower, d2: Lower)
    requires d != d2
    ensures Above(d2, d) <==> Above(d2, Parent(d)) && d.path != []
    ensures Above(Parent(d), d)
  {
    assert d2.path <= d.path && |d2.path| == |d.path| ==> d2.path == d.path;
  }

  function Inserted<T>(s: seq<T>, i: nat, x: T): seq<T>
    requires i <= |s|
  {
    s[..i] + [x] + s[i..]
  }

  function Removed<T>(s: seq<T>, i: nat): seq<T>
    requires i < |s|
  {
    s[..i] + s[i + 1..]
  }

  /** memmove of n elements one place up from i, and a store into the gap. */
  method InsertAt<T>(a: array<T>, n: nat, i: nat, x: T)
    requires i <= n < a.Length
    modifies a
    ensures a[..n + 1] == Inserted(old(a[..n]), i, x) && forall j :: n < j < a.Length ==> a[j] == old(a[j])
  {
    var k := n;
    while k > i
      invariant i <= k <= n
      invariant forall j :: 0 <= j < k ==> a[j] == old(a[j])
      invariant forall j :: k < j <= n ==> a[j] == old(a[j - 1])
      invariant forall j :: n < j < a.Length ==> a[j] == old(a[j])
    {
      a[k] := a[k - 1];
      k := k - 1;
    }
    a[i] := x;
  }

  /** memmove of what follows i one place down. */
  method RemoveAt<T>(a: array<T>, n: nat, i: nat)
    requires i < n <= a.Length
    modifies a
    ensures a[..n - 1] == Removed(old(a[..n]), i) && forall j :: n - 1 <= j < a.Length ==> a[j] == old(a[j])
  {
    var k := i;
    while k < n - 1
      invariant i <= k <= n - 1
      invariant forall j :: 0 <= j < i ==> a[j] == old(a[j])
      invariant forall j :: i <= j < k ==> a[j] == old(a[j + 1])
      invariant forall j :: k <= j < a.Length ==> a[j] == old(a[j])
    {
      a[k] := a[k + 1];
      k := k + 1;
    }
    ghost var was := old(a[..n]);
    forall j | 0 <= j < n - 1 ensures a[..n - 1][j] == Removed(was, i)[j] {
      assert was[if j < i then j else j + 1] == old(a[if j < i then j else j + 1]);
    }
  }

  /** struct aufs_branch: id, permission, and the super block of br_mnt. */
  datatype Br = Br(id: int, perm: Stack.Perm, sb: nat)

  /** One branch, across the three arrays. */
  datatype Row = Row(br: Br, root: Lower)

  /** What is fixed about the lower file systems: self is the mount itself, stacked ones are aufs or
      unionfs too, and rdonly says that a directory, or the file system it is on, is read-only. */
  datatype World = World(inode: Lower -> nat, nlink: Lower -> nat, maxbytes: nat -> nat,
                         self: nat, stacked: nat -> bool, rdonly: Lower -> bool)

  function Ids(tab: seq<Row>): (r: seq<int>)
    ensures |r| == |tab| && forall i :: 0 <= i < |tab| ==> r[i] == tab[i].br.id
  {
    seq(|tab|, i requires 0 <= i < |tab| => tab[i].br.id)
  }

  /** The table's own invariant: bounded, ids distinct and not zero, no root inside another. */
  ghost predicate TableOk(tab: seq<Row>) {
    && |tab| <= I.BRANCH_MAX
    && (forall i :: 0 <= i < |tab| ==> tab[i].br.id != 0 && tab[i].br.sb == tab[i].root.fs)
    && (forall i, j :: 0 <= i < j < |tab| ==> tab[i].br.id != tab[j].br.id)
    && (forall i, j :: 0 <= i < |tab| && 0 <= j < |tab| && i != j ==> !Above(tab[i].root, tab[j].root))
  }

  /** The value of i_nlink a whole recomputation gives. */
  function NlinkExtra(h: nat): int {
    if h < 2 then h else h - 2
  }

  function NlinkSum(w: World, tab: seq<Row>): int {
    if tab == [] then 0 else NlinkSum(w, tab[..|tab| - 1]) + NlinkExtra(w.nlink(tab[|tab| - 1].root))
  }

  function NlinkFold(w: World, tab: seq<Row>): int {
    if tab == [] then 2 else w.nlink(tab[0].root) + NlinkSum(w, tab[1..])
  }

  /** m is the largest s_maxbytes, and 0 when there is no branch. */
  ghost predicate IsMax(w: World, tab: seq<Row>, m: nat) {
    && (forall i :: 0 <= i < |tab| ==> w.maxbytes(tab[i].br.sb) <= m)
    && (m == 0 || exists i :: 0 <= i < |tab| && w.maxbytes(tab[i].br.sb) == m)
  }

  lemma {:induction false} InsertedAt(tab: seq<Row>, i: nat, row: Row)
    requires i <= |tab|
    ensures |Inserted(tab, i, row)| == |tab| + 1 && Inserted(tab, i, row)[i] == row
    ensures forall k :: 0 <= k < i ==> Inserted(tab, i, row)[k] == tab[k]
    ensures forall k :: i < k <= |tab| ==> Inserted(tab, i, row)[k] == tab[k - 1]
  {
  }

  lemma {:induction false} RemovedAt(tab: seq<Row>, i: nat)
    requires i < |tab|
    ensures |Removed(tab, i)| == |tab| - 1
    ensures forall k :: 0 <= k < i ==> Removed(tab, i)[k] == tab[k]
    ensures forall k :: i < k < |tab| ==> Removed(tab, i)[k - 1] == tab[k]
  {
  }

  lemma {:induction false} InsertOk(tab: seq<Row>, i: nat, row: Row)
    requires TableOk(tab) && i <= |tab| < I.BRANCH_MAX
    requires row.br.id != 0 && row.br.id !in Ids(tab) && row.br.sb == row.root.fs
    requires forall k :: 0 <= k < |tab| ==> !Above(tab[k].root, row.root) && !Above(row.root, tab[k].root)
    ensures TableOk(Inserted(tab, i, row))
  {
    hide Inserted, Above;
    var t := Inserted(tab, i, row);
    InsertedAt(tab, i, row);
    forall k | 0 <= k < |tab| ensures tab[k].br.id != row.br.id {
      assert Ids(tab)[k] == tab[k].br.id;
    }
    forall k, j | 0 <= k < j < |t| ensures t[k].br.id != t[j].br.id {
    }
    forall k, j | 0 <= k < |t| && 0 <= j < |t| && k != j ensures !Above(t[k].root, t[j].root) {
    }
  }

  lemma {:induction false} RemoveOk(tab: seq<Row>, i: nat)
    requires TableOk(tab) && i < |tab|
    ensures TableOk(Removed(tab, i))
  {
    var t := Removed(tab, i);
    assert forall k :: 0 <= k < |t| ==> t[k] == if k < i then tab[k] else tab[k + 1];
  }

  lemma {:induction false} InsertMax(w: World, tab: seq<Row>, i: nat, row: Row, m: nat)
    requires IsMax(w, tab, m) && i <= |tab|
    ensures var x := w.maxbytes(row.br.sb); IsMax(w, Inserted(tab, i, row), if m < x then x else m)
  {
    var t := Inserted(tab, i, row);
    assert t[i] == row;
    if k :| 0 <= k < |tab| && w.maxbytes(tab[k].br.sb) == m {
      assert t[if k < i then k else k + 1] == tab[k];
    }
  }

  /** Deleting a branch that does not have the largest one changes nothing. */
  lemma {:induction false} RemoveMax(w: World, tab: seq<Row>, i: nat, m: nat)
    requires IsMax(w, tab, m) && i < |tab| && w.maxbytes(tab[i].br.sb) != m
    ensures IsMax(w, Removed(tab, i), m)
  {
    var t := Removed(tab, i);
    assert forall k :: 0 <= k < |t| ==> t[k] == if k < i then tab[k] else tab[k + 1];
    if k :| 0 <= k < |tab| && w.maxbytes(tab[k].br.sb) == m {
      assert t[if k < i then k else k - 1] == tab[k];
    }
  }

  lemma {:induction false} SumConcat(w: World, s: seq<Row>, t: seq<Row>)
    ensures NlinkSum(w, s + t) == NlinkSum(w, s) + NlinkSum(w, t)
    decreases |t|
  {
    if t == [] {
      assert s + t == s;
    } else {
      SumConcat(w, s, t[..|t| - 1]);
      assert (s + t)[..|s + t| - 1] == s + t[..|t| - 1];
    }
  }

  lemma {:induction false} SumOne(w: World, row: Row)
    ensures NlinkSum(w, [row]) == NlinkExtra(w.nlink(row.root))
  {
    assert [row][..0] == [];
  }

  /** A link counts for the directory's own two once only: the top branch's count as it is, and of each
      other what exceeds two, or all of it where a file system does not count. */
  lemma {:induction false} NlinkOfThree(w: World, a: Row, b: Row, c: Row)
    requires w.nlink(b.root) >= 2 && w.nlink(c.root) == 1
    ensures NlinkFold(w, []) == 2 && NlinkFold(w, [a]) == w.nlink(a.root)
    ensures NlinkFold(w, [a, b, c]) == w.nlink(a.root) + (w.nlink(b.root) - 2) + 1
  {
    SumOne(w, b);
    SumOne(w, c);
    SumConcat(w, [b], [c]);
    assert [a, b, c][1..] == [b] + [c];
  }

  /** au_add_nlink and au_sub_nlink keep the sum, wherever the branch stands below the first. */
  lemma {:induction false} InsertNlink(w: World, tab: seq<Row>, i: nat, row: Row)
    requires 0 < i <= |tab|
    ensures NlinkFold(w, Inserted(tab, i, row)) == NlinkFold(w, tab) + NlinkExtra(w.nlink(row.root))
  {
    var rest := tab[1..];
    assert Inserted(tab, i, row)[1..] == rest[..i - 1] + ([row] + rest[i - 1..]);
    SumConcat(w, rest[..i - 1], [row] + rest[i - 1..]);
    SumConcat(w, [row], rest[i - 1..]);
    SumOne(w, row);
    SumConcat(w, rest[..i - 1], rest[i - 1..]);
    assert rest[..i - 1] + rest[i - 1..] == rest;
  }

  lemma {:induction false} RemoveNlink(w: World, tab: seq<Row>, i: nat)
    requires 0 < i < |tab|
    ensures NlinkFold(w, tab) == NlinkFold(w, Removed(tab, i)) + NlinkExtra(w.nlink(tab[i].root))
  {
    var t := Removed(tab, i);
    assert Inserted(t, i, tab[i]) == tab;
    InsertNlink(w, t, i, tab[i]);
  }

  /** au_add_nlink and au_sub_nlink. */
  function AddNlink(n: int, h: nat): (r: int)
    ensures r == n + NlinkExtra(h)
  {
    var sum := n + (h - 2);
    if h < 2 then sum + 2 else sum
  }

  function SubNlink(n: int, h: nat): (r: int)
    ensures r == n - NlinkExtra(h)
  {
    var sum := n - (h - 2);
    if h < 2 then sum - 2 else sum
  }

  /** The three arrays say the same as the table. */
  ghost predicate Parallel(w: World, bs: seq<Br>, ds: seq<Option<Lower>>, hs: seq<Slot>, tab: seq<Row>) {
    && |bs| == |ds| == |hs| == |tab|
    && forall i :: 0 <= i < |tab| ==> RowAt(w, bs[i], ds[i], hs[i], tab[i])
  }

  ghost predicate RowAt(w: World, b: Br, d: Option<Lower>, h: Slot, row: Row) {
    b == row.br && d == Some(row.root) && h == Slot(w.inode(row.root), row.br.id)
  }

  lemma {:induction false} ParallelInsert(w: World, bs: seq<Br>, ds: seq<Option<Lower>>, hs: seq<Slot>, tab: seq<Row>,
                                          i: nat, b: Br, d: Option<Lower>, h: Slot, row: Row)
    requires Parallel(w, bs, ds, hs, tab) && i <= |tab| && RowAt(w, b, d, h, row)
    ensures Parallel(w, Inserted(bs, i, b), Inserted(ds, i, d), Inserted(hs, i, h), Inserted(tab, i, row))
  {
    hide RowAt;
  }

  lemma {:induction false} ParallelRemove(w: World, bs: seq<Br>, ds: seq<Option<Lower>>, hs: seq<Slot>, tab: seq<Row>, i: nat)
    requires Parallel(w, bs, ds, hs, tab) && i < |tab|
    ensures Parallel(w, Removed(bs, i), Removed(ds, i), Removed(hs, i), Removed(tab, i))
  {
    hide RowAt;
  }

  /** struct opt_add. */
  datatype Add = Add(bindex: int, root: Lower, perm: Stack.Perm)

  predicate Writable(perm: Stack.Perm) {
    perm.RW? || perm.RWNoLinkWH?
  }

  ghost predicate Overlaps(tab: seq<Row>, d: Lower) {
    exists i :: 0 <= i < |tab| && (Above(tab[i].root, d) || Above(d, tab[i].root))
  }

  ghost predicate Known(tab: seq<Row>, d: Lower) {
    exists i :: 0 <= i < |tab| && tab[i].root == d
  }

  /** The verdict of test_add, the conditions in the order they are tested. */
  ghost function Verdict(w: World, tab: seq<Row>, add: Add, remount: bool): int {
    if Known(tab, add.root) then (if remount then 1 else -EINVAL)
    else if add.bindex >= I.BRANCH_MAX || |tab| >= I.BRANCH_MAX then -ENOSPC
    else if add.bindex < 0 || add.bindex > |tab| then -EDOM
    else if w.nlink(add.root) == 0 then -ENOENT
    else if add.root.fs == w.self || w.stacked(add.root.fs) then -EINVAL
    else if (Writable(add.perm) && w.rdonly(add.root)) || Overlaps(tab, add.root) then -EINVAL
    else 0
  }

  lemma {:induction false} RowOf(w: World, bs: seq<Br>, ds: seq<Option<Lower>>, hs: seq<Slot>, tab: seq<Row>, i: nat)
    requires Parallel(w, bs, ds, hs, tab) && i < |tab|
    ensures RowAt(w, bs[i], ds[i], hs[i], tab[i])
  {
  }

  /** The root directory never counts as unlinked. */
  lemma {:induction false} Positive(w: World, tab: seq<Row>, nlink: int, maxbytes: nat)
    requires Attributes(w, tab, nlink, maxbytes)
    ensures nlink > 0
  {
    if tab != [] {
      SumNatural(w, tab[1..]);
    }
  }

  lemma {:induction false} RemovedLinked(w: World, tab: seq<Row>, i: nat)
    requires i < |tab| && AllFit(w, tab)
    ensures |Removed(tab, i)| == |tab| - 1 && AllFit(w, Removed(tab, i))
  {
  }

  lemma {:induction false} SumNatural(w: World, tab: seq<Row>)
    ensures NlinkSum(w, tab) >= 0
  {
    if tab != [] {
      SumNatural(w, tab[..|tab| - 1]);
    }
  }

  lemma {:induction false} VerdictSays(w: World, tab: seq<Row>, add: Add, remount: bool)
    requires Verdict(w, tab, add, remount) == 0
    ensures |tab| < I.BRANCH_MAX && 0 <= add.bindex <= |tab| && Fit(w, add.perm, add.root)
    ensures forall k :: 0 <= k < |tab| ==> !Above(tab[k].root, add.root) && !Above(add.root, tab[k].root)
  {
  }

  /** The verdict in no order: a branch that is there already is passed over at a remount; any other
      is taken iff there is room for it, at an index that leaves no gap, it can be a branch at all,
      and it is neither in nor above another branch. */
  lemma {:induction false} VerdictIs(w: World, tab: seq<Row>, add: Add, remount: bool)
    requires |tab| <= I.BRANCH_MAX
    ensures var v := Verdict(w, tab, add, remount);
            && (v > 0 <==> remount && Known(tab, add.root)) && (v > 0 ==> v == 1)
            && (v == 0 <==> |tab| < I.BRANCH_MAX && 0 <= add.bindex <= |tab| && Fit(w, add.perm, add.root)
                            && forall i :: 0 <= i < |tab| ==> !Above(tab[i].root, add.root) && !Above(add.root, tab[i].root))
            && (v == -ENOSPC ==> |tab| == I.BRANCH_MAX || add.bindex >= I.BRANCH_MAX)
            && (v == -EDOM ==> !(0 <= add.bindex <= |tab|))
            && (v == -ENOENT ==> w.nlink(add.root) == 0)
            && (v < 0 ==> v in {-EINVAL, -ENOSPC, -EDOM, -ENOENT})
            && (v == -EINVAL ==> Known(tab, add.root) || Overlaps(tab, add.root) || !Fit(w, add.perm, add.root))
  {
    forall i | 0 <= i < |tab| && tab[i].root == add.root ensures Above(tab[i].root, add.root) {
    }
  }

  /** A directory that can be a branch: it is linked, is not on the mount itself nor on another
      stacked file system, and can be written if the branch is to be. */
  ghost predicate Fit(w: World, perm: Stack.Perm, root: Lower) {
    w.nlink(root) > 0 && root.fs != w.self && !w.stacked(root.fs) && (Writable(perm) ==> !w.rdonly(root))
  }

  ghost predicate AllFit(w: World, tab: seq<Row>) {
    forall i :: 0 <= i < |tab| ==> Fit(w, tab[i].br.perm, tab[i].root)
  }

  lemma {:induction false} IdsSize(tab: seq<Row>)
    requires TableOk(tab)
    ensures |Ids(tab)| <= I.BRANCH_MAX
  {
  }

  class SuperBlock {
    const w: World
    const counter: I.IdCounter
    // si_branch, and the root's di_hdentry and ii_hinode
    var branch: array<Br>
    var hdentry: array<Option<Lower>>
    var hinode: array<Slot>
    // si_bend, di_bend and ii_bend
    var siBend: int
    var diBend: int
    var iiBend: int
    // i_nlink of the root and s_maxbytes
    var nlink: int
    var maxbytes: nat
    ghost var tab: seq<Row>

    ghost predicate Arrays()
      reads this, branch, hdentry, hinode
    {
      && siBend == diBend == iiBend == |tab| - 1
      && |tab| <= branch.Length && |tab| <= hdentry.Length && |tab| <= hinode.Length
      && Parallel(w, branch[..|tab|], hdentry[..|tab|], hinode[..|tab|], tab)
      // nothing behind the last branch
      && (forall i :: |tab| <= i < hdentry.Length ==> hdentry[i] == None)
      && forall i :: |tab| <= i < hinode.Length ==> hinode[i].obj == NULL
    }

    ghost predicate Valid()
      reads this, branch, hdentry, hinode, counter
    {
      && Arrays() && counter.Valid() && TableOk(tab) && Attributes(w, tab, nlink, maxbytes)
    }

    /** The arrays are still the same objects, or newly allocated ones. */
    twostate predicate Mine()
      reads this
    {
      && (branch == old(branch) || fresh(branch)) && (hdentry == old(hdentry) || fresh(hdentry))
      && (hinode == old(hinode) || fresh(hinode))
    }

    /** A mount without branches yet. */
    constructor (w: World)
      ensures Valid() && tab == [] && fresh(branch) && fresh(hdentry) && fresh(hinode) && fresh(counter)
      ensures this.w == w
    {
      this.w := w;
      counter := new I.IdCounter();
      branch := new Br[1](_ => Br(0, Stack.RO, 0));
      hdentry := new Option<Lower>[1](_ => None);
      hinode := new Slot[1](_ => Slot(NULL, -1));
      siBend, diBend, iiBend := -1, -1, -1;
      nlink, maxbytes := 2, 0;
      tab := [];
    }

    /** au_find_dbindex on the root. */
    method FindDbindex(d: Lower) returns (r: int)
      requires Arrays()
      ensures r == -1 <==> !Known(tab, d)
      ensures r != -1 ==> 0 <= r < |tab| && tab[r].root == d
    {
      r := 0;
      while r <= diBend
        invariant 0 <= r <= |tab| && forall i :: 0 <= i < r ==> tab[i].root != d
      {
        assert RowAt(w, branch[..|tab|][r], hdentry[..|tab|][r], hinode[..|tab|][r], tab[r]);
        if hdentry[r] == Some(d) {
          return;
        }
        r := r + 1;
      }
      r := -1;
    }

    /** The last loop of test_add: is_overlap with every branch. */
    method AnyOverlap(d: Lower) returns (r: bool)
      requires Arrays()
      ensures r <==> Overlaps(tab, d)
    {
      var i := 0;
      while i <= siBend
        invariant 0 <= i <= |tab|
        invariant forall k :: 0 <= k < i ==> !Above(tab[k].root, d) && !Above(d, tab[k].root)
      {
        assert RowAt(w, branch[..|tab|][i], hdentry[..|tab|][i], hinode[..|tab|][i], tab[i]);
        var o1 := DoIsOverlap(d, hdentry[i].value);
        var o2 := DoIsOverlap(hdentry[i].value, d);
        if d == hdentry[i].value || o1 || o2 {
          return true;
        }
        i := i + 1;
      }
      return false;
    }

    /** test_add. */
    method TestAdd(add: Add, remount: bool) returns (err: int)
      requires Arrays()
      ensures err == Verdict(w, tab, add, remount)
    {
      hide Parallel;
      var found := FindDbindex(add.root);
      if found != -1 {
        return if remount then 1 else -EINVAL;
      }
      var bend := siBend;
      if I.BRANCH_MAX <= add.bindex || I.BRANCH_MAX - 1 <= bend {
        return -ENOSPC;
      }
      if add.bindex < 0 || bend + 1 < add.bindex {
        return -EDOM;
      }
      if w.nlink(add.root) == 0 {
        return -ENOENT;
      }
      if add.root.fs == w.self || w.stacked(add.root.fs) {
        return -EINVAL;
      }
      if Writable(add.perm) && w.rdonly(add.root) {
        return -EINVAL;
      }
      if bend == -1 {
        assert !Overlaps(tab, add.root);
        return 0;
      }
      var o := AnyOverlap(add.root);
      return if o then -EINVAL else 0;
    }

    // the three au_kzrealloc calls of alloc_addbr
    method GrowBranch() returns (err: int)
      requires Arrays()
      modifies this`branch, branch
      ensures Arrays() && (err == 0 || err == -ENOMEM) && (branch == old(branch) || fresh(branch))
      ensures err == 0 ==> |tab| < branch.Length
      ensures !FAULTS ==> err == 0
    {
      hide Parallel;
      var a;
      err, a := Kzrealloc(branch, siBend + 1, siBend + 2, Br(0, Stack.RO, 0));
      branch := a;
    }

    method GrowHdentry() returns (err: int)
      requires Arrays()
      modifies this`hdentry, hdentry
      ensures Arrays() && (err == 0 || err == -ENOMEM) && (hdentry == old(hdentry) || fresh(hdentry))
      ensures err == 0 ==> |tab| < hdentry.Length
      ensures !FAULTS ==> err == 0
    {
      hide Parallel;
      var a;
      err, a := Kzrealloc(hdentry, diBend + 1, diBend + 2, None);
      hdentry := a;
    }

    method GrowHinode() returns (err: int)
      requires Arrays()
      modifies this`hinode, hinode
      ensures Arrays() && (err == 0 || err == -ENOMEM) && (hinode == old(hinode) || fresh(hinode))
      ensures err == 0 ==> |tab| < hinode.Length
      ensures !FAULTS ==> err == 0
    {
      hide Parallel;
      var a;
      err, a := Kzrealloc(hinode, iiBend + 1, iiBend + 2, Slot(NULL, 0));
      hinode := a;
    }

    /** alloc_addbr: room for one more branch in each array. */
    method AllocAddbr() returns (err: int)
      requires Arrays()
      modifies this`branch, this`hdentry, this`hinode, branch, hdentry, hinode
      ensures Arrays() && (err == 0 || err == -ENOMEM)
      ensures branch in {old(branch)} || fresh(branch)
      ensures hdentry in {old(hdentry)} || fresh(hdentry)
      ensures hinode in {old(hinode)} || fresh(hinode)
      ensures err == 0 ==> |tab| < branch.Length && |tab| < hdentry.Length && |tab| < hinode.Length
      ensures !FAULTS ==> err == 0
    {
      hide Parallel, Arrays;
      err := LowerFault();
      if err != 0 {
        return -ENOMEM;
      }
      err := GrowBranch();
      if err == 0 {
        err := GrowHdentry();
        if err == 0 {
          err := GrowHinode();
        }
      }
    }

    /** The shift of the three arrays by one, and the stores into the gap. */
    method Insert(i: nat, br: Br, root: Lower)
      requires Arrays() && i <= |tab|
      requires |tab| < branch.Length && |tab| < hdentry.Length && |tab| < hinode.Length
      modifies this`siBend, this`diBend, this`iiBend, this`tab, branch, hdentry, hinode
      ensures Arrays() && tab == Inserted(old(tab), i, Row(br, root))
    {
      hide Parallel, Inserted;
      ghost var n := |tab|;
      ghost var bs, ds, hs := branch[..n], hdentry[..n], hinode[..n];
      InsertedAt(tab, i, Row(br, root));
      var h := Slot(w.inode(root), br.id);
      InsertAt(branch, siBend + 1, i, br);
      InsertAt(hdentry, diBend + 1, i, Some(root));
      InsertAt(hinode, iiBend + 1, i, h);
      ParallelInsert(w, bs, ds, hs, tab, i, br, Some(root), h, Row(br, root));
      siBend := siBend + 1;
      diBend := diBend + 1;
      iiBend := iiBend + 1;
      tab := Inserted(tab, i, Row(br, root));
    }

    /** The shift back over a deleted branch. */
    method Remove(i: nat)
      requires Arrays() && i < |tab|
      modifies this`siBend, this`diBend, this`iiBend, this`tab, branch, hdentry, hinode
      ensures Arrays() && tab == Removed(old(tab), i)
    {
      hide Parallel, Removed;
      ghost var n := |tab|;
      ghost var bs, ds, hs := branch[..n], hdentry[..n], hinode[..n];
      RemovedAt(tab, i);
      RemoveAt(branch, siBend + 1, i);
      RemoveAt(hdentry, diBend + 1, i);
      RemoveAt(hinode, iiBend + 1, i);
      ParallelRemove(w, bs, ds, hs, tab, i);
      hdentry[diBend] := None;
      hinode[iiBend] := hinode[iiBend].(obj := NULL);
      assert branch[..n - 1] == Removed(bs, i) && hdentry[..n - 1] == Removed(ds, i) && hinode[..n - 1] == Removed(hs, i);
      siBend := siBend - 1;
      diBend := diBend - 1;
      iiBend := iiBend - 1;
      tab := Removed(tab, i);
    }

    /** au_cpup_attr_nlink on the root: recompute. */
    method CpupAttrNlink()
      requires Arrays() && tab != []
      modifies this`nlink
      ensures nlink == NlinkFold(w, tab)
    {
      RowOf(w, branch[..|tab|], hdentry[..|tab|], hinode[..|tab|], tab, 0);
      nlink := w.nlink(hdentry[0].value);
      var i := 1;
      assert tab[1..i] == [];
      while i <= iiBend
        invariant 1 <= i <= |tab| && nlink == w.nlink(tab[0].root) + NlinkSum(w, tab[1..i])
      {
        RowOf(w, branch[..|tab|], hdentry[..|tab|], hinode[..|tab|], tab, i);
        nlink := AddNlink(nlink, w.nlink(hdentry[i].value));
        assert tab[1..i + 1][..|tab[1..i + 1]| - 1] == tab[1..i];
        i := i + 1;
      }
      assert tab[1..i] == tab[1..];
    }

    /** The recomputation of s_maxbytes in br_del. */
    method MaxBytes()
      requires Arrays()
      modifies this`maxbytes
      ensures IsMax(w, tab, maxbytes)
    {
      maxbytes := 0;
      var i := 0;
      assert tab[..0] == [];
      while i <= siBend
        invariant 0 <= i <= |tab| && IsMax(w, tab[..i], maxbytes)
      {
        RowOf(w, branch[..|tab|], hdentry[..|tab|], hinode[..|tab|], tab, i);
        InsertMax(w, tab[..i], i, tab[i], maxbytes);
        assert Inserted(tab[..i], i, tab[i]) == tab[..i + 1];
        var maxb := w.maxbytes(branch[i].sb);
        if maxbytes < maxb {
          maxbytes := maxb;
        }
        i := i + 1;
      }
      assert tab[..i] == tab;
    }

    /** The ids as find_brindex sees them. */
    method BrIds() returns (ids: seq<int>)
      requires Arrays()
      ensures ids == Ids(tab)
    {
      ids := [];
      var i := 0;
      while i <= siBend
        invariant 0 <= i <= |tab| && ids == Ids(tab)[..i]
      {
        RowOf(w, branch[..|tab|], hdentry[..|tab|], hinode[..|tab|], tab, i);
        ids := ids + [branch[i].id];
        i := i + 1;
      }
    }

    /** The attributes after an insertion: recomputed for a new top branch, else added to. */
    method AddAttributes(i: nat, ghost t0: seq<Row>, ghost row: Row)
      requires Arrays() && i <= |t0| && tab == Inserted(t0, i, row) && Attributes(w, t0, nlink, maxbytes)
      requires Fit(w, row.br.perm, row.root)
      modifies this`nlink, this`maxbytes
      ensures Arrays() && Attributes(w, tab, nlink, maxbytes)
    {
      hide Parallel, NlinkFold, IsMax, Inserted;
      InsertedAt(t0, i, row);
      RowOf(w, branch[..|tab|], hdentry[..|tab|], hinode[..|tab|], tab, i);
      Positive(w, t0, nlink, maxbytes);
      InsertMax(w, t0, i, row, maxbytes);
      if i == 0 {
        if nlink > 0 {
          CpupAttrNlink();
        }
      } else {
        InsertNlink(w, t0, i, row);
        nlink := AddNlink(nlink, w.nlink(hdentry[i].value));
      }
      var maxb := w.maxbytes(branch[i].sb);
      if maxbytes < maxb {
        maxbytes := maxb;
      }
    }

    /** The attributes after a deletion. */
    method SubAttributes(i: nat, root: Lower, sb: nat, ghost t0: seq<Row>)
      requires Arrays() && i < |t0| && 1 < |t0| && tab == Removed(t0, i) && Attributes(w, t0, nlink, maxbytes)
      requires t0[i].root == root && t0[i].br.sb == sb
      modifies this`nlink, this`maxbytes
      ensures Arrays() && Attributes(w, tab, nlink, maxbytes)
    {
      hide Parallel, NlinkFold, IsMax, Removed;
      Positive(w, t0, nlink, maxbytes);
      RemovedLinked(w, t0, i);
      if i == 0 {
        if nlink > 0 {
          CpupAttrNlink();
        }
      } else {
        RemoveNlink(w, t0, i);
        nlink := SubNlink(nlink, w.nlink(root));
      }
      if maxbytes == w.maxbytes(sb) {
        MaxBytes();
      } else {
        RemoveMax(w, t0, i, maxbytes);
      }
    }

    /** The rest of br_add, which cannot fail: a fresh id, and the row in its place. */
    method AddRow(add: Add) returns (ghost id: int, ghost n: nat)
      requires Valid() && |tab| < I.BRANCH_MAX && 0 <= add.bindex <= |tab| && Fit(w, add.perm, add.root)
      requires forall k :: 0 <= k < |tab| ==> !Above(tab[k].root, add.root) && !Above(add.root, tab[k].root)
      requires |tab| < branch.Length && |tab| < hdentry.Length && |tab| < hinode.Length
      modifies this`siBend, this`diBend, this`iiBend, this`tab, this`nlink, this`maxbytes, branch, hdentry, hinode, counter
      ensures Valid()
      ensures tab == Inserted(old(tab), add.bindex, Row(Br(id, add.perm, add.root.fs), add.root))
      ensures I.FirstFree(old(counter.last), Ids(old(tab)), id, n)
    {
      hide Arrays, TableOk, Attributes, Ids, Inserted, Above, Parallel, RowAt;
      ghost var t0 := tab;
      var ids := BrIds();
      IdsSize(tab);
      var newId;
      newId, n := counter.NewBrId(ids);
      id := newId;
      var br := Br(newId, add.perm, add.root.fs);
      Insert(add.bindex, br, add.root);
      InsertOk(t0, add.bindex, Row(br, add.root));
      AddAttributes(add.bindex, t0, Row(br, add.root));
    }

    /** br_add: as test_add says, or out of memory, or a failure to set up the whiteout base; the
        new branch has a fresh id and stands at the index asked for. */
    method BrAdd(add: Add, remount: bool) returns (err: int, ghost id: int, ghost n: nat)
      requires Valid()
      modifies this, branch, hdentry, hinode, counter
      ensures Valid() && Mine()
      ensures Verdict(w, old(tab), add, remount) < 0 ==> err == Verdict(w, old(tab), add, remount)
      ensures Verdict(w, old(tab), add, remount) > 0 ==> err == 0 && tab == old(tab)
      ensures err != 0 ==> err < 0 && tab == old(tab)
      ensures !FAULTS ==> (err == 0 <==> Verdict(w, old(tab), add, remount) >= 0)
      ensures err == 0 && Verdict(w, old(tab), add, remount) == 0 ==>
                && 0 <= add.bindex <= |old(tab)|
                && tab == Inserted(old(tab), add.bindex, Row(Br(id, add.perm, add.root.fs), add.root))
                && I.FirstFree(old(counter.last), Ids(old(tab)), id, n)
    {
      hide Arrays, TableOk, Attributes, Verdict, Ids, I.FirstFree, Inserted, Above, Parallel, RowAt, Known;
      id, n := 0, 0;
      err := TestAdd(add, remount);
      if err != 0 {
        if err > 0 {
          err := 0;
        }
        return;
      }
      VerdictSays(w, tab, add, remount);
      err := AllocAddbr();
      if err != 0 {
        return;
      }
      if Writable(add.perm) {
        err := LowerFault();
        if err != 0 {
          return;
        }
      }
      id, n := AddRow(add);
    }

    /** br_del: the last branch and a branch in use stay, be it by its count or, busy, by what
        test_children_busy finds; deleting closes the gap. */
    method BrDel(root: Lower, remount: bool, count: nat, busy: bool) returns (err: int, ghost i: int)
      requires Valid()
      modifies this, branch, hdentry, hinode
      ensures Valid() && branch == old(branch) && hdentry == old(hdentry) && hinode == old(hinode)
      ensures !Known(old(tab), root) ==> tab == old(tab) && err == if remount then 0 else -ENOENT
      ensures err != 0 ==> err < 0 && tab == old(tab)
      ensures Known(old(tab), root) && (|old(tab)| == 1 || count > 0) ==> err == -EBUSY
      ensures Known(old(tab), root) && busy ==> err < 0
      ensures !FAULTS && Known(old(tab), root) ==> err == if |old(tab)| == 1 || count > 0 || busy then -EBUSY else 0
      ensures Known(old(tab), root) && err == 0 ==>
                0 <= i < |old(tab)| && old(tab)[i].root == root && tab == Removed(old(tab), i) && tab != []
    {
      hide TableOk, Attributes, Parallel;
      ghost var t0 := tab;
      var bindex := FindDbindex(root);
      i := bindex;
      if bindex < 0 {
        return if remount then 0 else -ENOENT, i;
      }
      RowOf(w, branch[..|tab|], hdentry[..|tab|], hinode[..|tab|], tab, bindex);
      var br := branch[bindex];
      if siBend == 0 || count > 0 {
        return -EBUSY, i;
      }
      // test_children_busy
      err := LowerFault();
      if err == 0 && busy {
        err := -EBUSY;
      }
      if err != 0 {
        return;
      }
      Remove(bindex);
      RemoveOk(t0, bindex);
      SubAttributes(bindex, root, br.sb, t0);
    }
  }

  /** Every branch can be one, and the root's attributes are what recomputing would give. */
  ghost predicate Attributes(w: World, tab: seq<Row>, nlink: int, maxbytes: nat) {
    nlink == NlinkFold(w, tab) && IsMax(w, tab, maxbytes) && AllFit(w, tab)
  }
}
