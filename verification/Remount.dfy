/** Whole runs of adding and deleting branches, and what a cached inode makes of them. */
module Remount {
  import opened Names
  import opened Slots
  import opened BranchTable
  import I = BranchIds
  import R = Reindex
  import Stack

  /** A remount option. */
  datatype Req = AddBranch(add: Add, remount: bool) | DelBranch(root: Lower, remount: bool, count: nat, busy: bool)

  /** What one option may do to the table. */
  ghost predicate Step(w: World, t: seq<Row>, req: Req, err: int, t': seq<Row>) {
    match req
    case AddBranch(add, remount) =>
      var v := Verdict(w, t, add, remount);
      if v != 0 then t' == t && err == if v < 0 then v else 0
      else if err != 0 then FAULTS && err < 0 && t' == t
      else 0 <= add.bindex <= |t| && exists id ::
             id != 0 && id !in Ids(t) && t' == Inserted(t, add.bindex, Row(Br(id, add.perm, add.root.fs), add.root))
    case DelBranch(root, remount, count, busy) =>
      if !Known(t, root) then t' == t && err == if remount then 0 else -ENOENT
      else if |t| == 1 || count > 0 then t' == t && err == -EBUSY
      else if err != 0 then err < 0 && t' == t && (FAULTS || (busy && err == -EBUSY))
      else !busy && exists i :: 0 <= i < |t| && t[i].root == root && t' == Removed(t, i)
  }

  /** The tables a run goes through. */
  ghost predicate Trace(w: World, tabs: seq<seq<Row>>, reqs: seq<Req>, errs: seq<int>) {
    && |tabs| == |errs| + 1 && |errs| <= |reqs|
    && (forall i :: 0 <= i < |tabs| ==> TableOk(tabs[i]) && AllFit(w, tabs[i]))
    // once there is a branch there always is one
    && (forall i, j :: 0 <= i <= j < |tabs| && tabs[i] != [] ==> tabs[j] != [])
    && (forall i :: 0 <= i < |errs| ==> Step(w, tabs[i], reqs[i], errs[i], tabs[i + 1]))
  }

  lemma {:induction false} TraceMore(w: World, tabs: seq<seq<Row>>, reqs: seq<Req>, errs: seq<int>, err: int, t: seq<Row>)
    requires Trace(w, tabs, reqs, errs) && |errs| < |reqs| && TableOk(t) && AllFit(w, t)
    requires Step(w, tabs[|errs|], reqs[|errs|], err, t)
    ensures Trace(w, tabs + [t], reqs, errs + [err])
  {
    hide TableOk, AllFit, Step;
    if tabs[|errs|] != [] {
      StepKeepsOne(w, tabs[|errs|], reqs[|errs|], err, t);
    }
    var tabs', errs' := tabs + [t], errs + [err];
    forall i | 0 <= i < |errs'| ensures Step(w, tabs'[i], reqs[i], errs'[i], tabs'[i + 1]) {
      assert i < |errs| ==> tabs'[i] == tabs[i] && tabs'[i + 1] == tabs[i + 1] && errs'[i] == errs[i];
    }
  }

  lemma {:induction false} StepKeepsOne(w: World, t: seq<Row>, req: Req, err: int, t': seq<Row>)
    requires Step(w, t, req, err, t') && t != []
    ensures t' != []
  {
    hide Verdict, Ids, Known;
  }

  /** Any run of br_add and br_del keeps the arrays parallel and the root's attributes exact
      (Valid); the tables it goes through all have distinct ids that are not zero, roots apart and
      a bounded number of branches, each fit to be one, never again zero, and change exactly as test_add and the
      conditions of br_del say. */
  method Run(sb: SuperBlock, reqs: seq<Req>) returns (errs: seq<int>, ghost tabs: seq<seq<Row>>)
    requires sb.Valid()
    modifies sb, sb.branch, sb.hdentry, sb.hinode, sb.counter
    ensures sb.Valid() && Trace(sb.w, tabs, reqs, errs) && |errs| == |reqs|
    ensures tabs[0] == old(sb.tab) && tabs[|reqs|] == sb.tab
  {
    hide Verdict, I.FirstFree, Removed, Inserted, Known, Ids, TableOk, AllFit, NlinkFold, IsMax, Parallel;
    errs := [];
    tabs := [sb.tab];
    while |errs| < |reqs|
      invariant sb.Valid() && sb.Mine() && Trace(sb.w, tabs, reqs, errs)
      invariant tabs[0] == old(sb.tab) && tabs[|errs|] == sb.tab
      decreases |reqs| - |errs|
    {
      ghost var t := sb.tab;
      var err := Apply(sb, reqs[|errs|]);
      TraceMore(sb.w, tabs, reqs, errs, err, sb.tab);
      tabs := tabs + [sb.tab];
      errs := errs + [err];
    }
  }

  /** One option. */
  method Apply(sb: SuperBlock, req: Req) returns (err: int)
    requires sb.Valid()
    modifies sb, sb.branch, sb.hdentry, sb.hinode, sb.counter
    ensures sb.Valid() && sb.Mine() && Step(sb.w, old(sb.tab), req, err, sb.tab)
  {
    hide Verdict, Removed, Inserted, Ids, TableOk, Attributes, Parallel;
    match req
    case AddBranch(add, remount) =>
      ghost var id, n;
      err, id, n := sb.BrAdd(add, remount);
      assert Verdict(sb.w, old(sb.tab), add, remount) == 0 && err == 0 ==> id != 0 && id !in Ids(old(sb.tab));
    case DelBranch(root, remount, count, busy) =>
      ghost var at;
      err, at := sb.BrDel(root, remount, count, busy);
      assert !Known(old(sb.tab), root) || err != 0 || (0 <= at < |old(sb.tab)| && old(sb.tab)[at].root == root);
  }

  /** An inode refreshed under table t: a live slot's id is that of its branch. */
  ghost predicate HoldsFor(t: seq<Row>, s: seq<Slot>) {
    forall i :: 0 <= i < |s| && s[i].obj != NULL ==> i < |t| && s[i].key == t[i].br.id
  }

  /** No id a live slot still holds has gone to another branch. */
  ghost predicate NotReissued(t0: seq<Row>, t1: seq<Row>, s: seq<Slot>) {
    forall i, j :: 0 <= i < |s| && s[i].obj != NULL && i < |t0| && 0 <= j < |t1| && t1[j].br.id == s[i].key ==> t1[j] == t0[i]
  }

  /** Slot j of the refreshed inode came from the slot of the same branch. */
  ghost predicate Faithful(t0: seq<Row>, t1: seq<Row>, s0: seq<Slot>, s: seq<Slot>, j: nat)
    requires j < |s|
  {
    s[j].obj != NULL ==> j < |t1| && exists i :: 0 <= i < |s0| && s0[i] == s[j] && i < |t0| && t0[i] == t1[j]
  }

  lemma {:induction false} IdsDistinct(t: seq<Row>)
    requires TableOk(t)
    ensures R.KeysDistinct(Ids(t)) && NULL !in Ids(t)
  {
  }

  /** Branches changed from t0 to t1, and au_refresh_hinode permuted s0 into s: the inode's map
      from branch to lower inode is the old one cut down to the branches that are left, exactly
      when no id still held was issued again. */
  lemma {:induction false} RefreshRight(t0: seq<Row>, t1: seq<Row>, s0: seq<Slot>, s: seq<Slot>)
    requires TableOk(t0) && TableOk(t1) && HoldsFor(t0, s0) && |t1| <= |s|
    requires AllPlaced(s, Ids(t1)) && Held(s) == Survivors(s0, Ids(t1))
    ensures NotReissued(t0, t1, s0) <==> forall j :: 0 <= j < |s| ==> Faithful(t0, t1, s0, s, j)
    ensures forall i, j :: 0 <= i < |s0| && s0[i].obj != NULL && 0 <= j < |t1| && t1[j] == t0[i] ==> s[j] == s0[i]
  {
    IdsDistinct(t1);
    if NotReissued(t0, t1, s0) {
      forall j | 0 <= j < |s| ensures Faithful(t0, t1, s0, s, j) {
        CameFrom(t0, t1, s0, s, j);
      }
    }
    if forall j :: 0 <= j < |s| ==> Faithful(t0, t1, s0, s, j) {
      forall i, j | 0 <= i < |s0| && s0[i].obj != NULL && i < |t0| && 0 <= j < |t1| && t1[j].br.id == s0[i].key
        ensures t1[j] == t0[i]
      {
        GoesTo(t0, t1, s0, s, i, j);
      }
    }
    forall i, j | 0 <= i < |s0| && s0[i].obj != NULL && 0 <= j < |t1| && t1[j] == t0[i] ensures s[j] == s0[i] {
      Stays(t0, t1, s0, s, i, j);
    }
  }

  lemma {:induction false} CameFrom(t0: seq<Row>, t1: seq<Row>, s0: seq<Slot>, s: seq<Slot>, j: nat)
    requires HoldsFor(t0, s0) && j < |s| && NotReissued(t0, t1, s0)
    requires AllPlaced(s, Ids(t1)) && Held(s) == Survivors(s0, Ids(t1))
    ensures Faithful(t0, t1, s0, s, j)
  {
    hide Index;
    if s[j].obj != NULL {
      assert Placed(s, Ids(t1), j) && s[j] in Held(s);
      R.IndexRange(Ids(t1), s[j].key);
      assert Ids(t1)[j] == s[j].key;
      var i :| 0 <= i < |s0| && s0[i].obj != NULL && s0[i] == s[j];
      assert t1[j] == t0[i];
    }
  }

  lemma {:induction false} Stays(t0: seq<Row>, t1: seq<Row>, s0: seq<Slot>, s: seq<Slot>, i: nat, j: nat)
    requires HoldsFor(t0, s0) && i < |s0| && s0[i].obj != NULL && j < |t1| <= |s| && t1[j].br.id == s0[i].key
    requires R.KeysDistinct(Ids(t1)) && NULL !in Ids(t1)
    requires AllPlaced(s, Ids(t1)) && Held(s) == Survivors(s0, Ids(t1))
    ensures s[j] == s0[i]
  {
    hide Index;
    assert s0[i] in Held(s0);
    R.MapRestricted(s0, s, Ids(t1), j);
  }

  lemma {:induction false} GoesTo(t0: seq<Row>, t1: seq<Row>, s0: seq<Slot>, s: seq<Slot>, i: nat, j: nat)
    requires TableOk(t0) && HoldsFor(t0, s0) && i < |s0| && s0[i].obj != NULL && j < |t1| <= |s| && t1[j].br.id == s0[i].key
    requires R.KeysDistinct(Ids(t1)) && NULL !in Ids(t1)
    requires AllPlaced(s, Ids(t1)) && Held(s) == Survivors(s0, Ids(t1)) && Faithful(t0, t1, s0, s, j)
    ensures t1[j] == t0[i]
  {
    hide Index, AllPlaced, Held, Survivors;
    Stays(t0, t1, s0, s, i, j);
    var k :| 0 <= k < |s0| && s0[k] == s[j] && k < |t0| && t0[k] == t1[j];
    assert t0[k].br.id == t0[i].br.id;
  }

  // branches 5 and 6; then 5 is deleted and its id given to another directory, put at the end
  const T0: seq<Row> := [Row(Br(5, Stack.RW, 0), Lower(0, ["a"])), Row(Br(6, Stack.RO, 1), Lower(1, ["b"]))]
  const T1: seq<Row> := [Row(Br(6, Stack.RO, 1), Lower(1, ["b"])), Row(Br(5, Stack.RW, 2), Lower(2, ["c"]))]

  // an inode with a lower inode on each of them, and what its refresh makes of it
  const S0: seq<Slot> := [Slot(7, 5), Slot(8, 6)]
  const S1: seq<Slot> := [Slot(8, 6), Slot(7, 5)]

  /** So a refreshed inode can hold, for a new branch, a lower inode of a deleted one. */
  lemma {:induction false} StaleSlot()
    ensures TableOk(T0) && TableOk(T1) && HoldsFor(T0, S0) && |T1| <= |S1|
    ensures AllPlaced(S1, Ids(T1)) && Held(S1) == Survivors(S0, Ids(T1))
    ensures !Faithful(T0, T1, S0, S1, 1)
  {
    var ids := Ids(T1);
    assert ids == [6, 5];
    assert !Above(Lower(0, ["a"]), Lower(1, ["b"])) && !Above(Lower(1, ["b"]), Lower(0, ["a"]));
    FirstIsIndex(ids, 6, 0);
    FirstIsIndex(ids, 5, 1);
    assert S0[0] == S1[1] && S0[1] == S1[0];
    forall x | x in Held(S0) ensures x in Held(S1) {
      assert x == S1[1] || x == S1[0];
    }
    forall x | x in Held(S1) ensures x in Survivors(S0, ids) {
      assert x == S0[1] || x == S0[0];
    }
  }
}
