/** The cached per-branch arrays, and what the swap loops do to them. */
module Slots {
  /** A slot of ii_hinode, di_hdentry or fi_hfile: a lower object (0 for NULL) and the key that
      tells its branch: the branch id, the parent's lower dentry, or the branch pointer. */
  datatype Slot = Slot(obj: nat, key: int)

  const NULL: nat := 0

  /** The first place of a key. */
  function Index(keys: seq<int>, key: int): (r: int)
    ensures r == -1 <==> key !in keys
    ensures r != -1 ==> 0 <= r < |keys| && keys[r] == key && key !in keys[..r]
    decreases |keys|
  {
    if keys == [] then -1
    else
      var r := Index(keys[..|keys| - 1], key);
      if r == -1 && keys[|keys| - 1] == key then |keys| - 1 else r
  }

  /** find_brindex, find_bindex and au_find_dbindex: the same search over three tables. */
  method Find(keys: seq<int>, key: int) returns (r: int)
    ensures r == Index(keys, key)
  {
    var i := 0;
    while i < |keys|
      invariant i <= |keys| && key !in keys[..i]
    {
      if keys[i] == key {
        FirstIsIndex(keys, key, i);
        return i;
      }
      i := i + 1;
    }
    assert keys[..i] == keys;
    return -1;
  }

  lemma {:induction false} FirstIsIndex(keys: seq<int>, key: int, i: nat)
    requires i < |keys| && keys[i] == key && key !in keys[..i]
    ensures Index(keys, key) == i
  {
    var r := Index(keys, key);
    assert r != -1;
    forall k | 0 <= k < i ensures keys[k] != key {
      assert keys[..i][k] == keys[k];
    }
    forall k | 0 <= k < r ensures keys[k] != key {
      assert keys[..r][k] == keys[k];
    }
  }

  /** No two live slots want the same place. */
  ghost predicate Distinct(s: seq<Slot>) {
    forall i, j :: 0 <= i < j < |s| && s[i].obj != NULL && s[j].obj != NULL ==> s[i].key != s[j].key
  }

  /** The live slots. */
  ghost function Held(s: seq<Slot>): set<Slot> {
    set i | 0 <= i < |s| && s[i].obj != NULL :: s[i]
  }

  predicate Placed(s: seq<Slot>, keys: seq<int>, i: nat)
    requires i < |s|
  {
    s[i].obj != NULL ==> Index(keys, s[i].key) == i
  }

  ghost predicate AllPlaced(s: seq<Slot>, keys: seq<int>) {
    forall i :: 0 <= i < |s| ==> Placed(s, keys, i)
  }

  /** The measure of the swap loops. */
  ghost function Misplaced(s: seq<Slot>, keys: seq<int>): set<nat> {
    set i | 0 <= i < |s| && !Placed(s, keys, i)
  }

  /** The live slots whose branch is still there. */
  ghost function Survivors(s: seq<Slot>, keys: seq<int>): set<Slot> {
    set x | x in Held(s) && x.key in keys
  }

  function Swapped(s: seq<Slot>, i: nat, j: nat): seq<Slot>
    requires i < |s| && j < |s|
  {
    s[i := s[j]][j := s[i]]
  }

  function Dropped(s: seq<Slot>, i: nat, key: int): seq<Slot>
    requires i < |s|
  {
    s[i := Slot(NULL, key)]
  }

  lemma {:induction false} SwapHeld(s: seq<Slot>, i: nat, j: nat)
    requires i < |s| && j < |s| && Distinct(s)
    ensures Held(Swapped(s, i, j)) == Held(s) && Distinct(Swapped(s, i, j))
  {
    var s' := Swapped(s, i, j);
    forall x | x in Held(s) ensures x in Held(s') {
      var k :| 0 <= k < |s| && s[k].obj != NULL && s[k] == x;
      var k' := if k == i then j else if k == j then i else k;
      assert s'[k'] == x;
    }
  }

  lemma {:induction false} DropHeld(s: seq<Slot>, i: nat, key: int)
    requires i < |s| && s[i].obj != NULL && Distinct(s)
    ensures Held(Dropped(s, i, key)) == Held(s) - {s[i]} && Distinct(Dropped(s, i, key))
  {
    var s' := Dropped(s, i, key);
    forall x | x in Held(s) - {s[i]} ensures x in Held(s') {
      var k :| 0 <= k < |s| && s[k].obj != NULL && s[k] == x;
      assert s'[k] == x;
    }
  }

  /** A swap puts one slot right and moves none that was right. */
  lemma {:induction false} SwapPlaces(s: seq<Slot>, keys: seq<int>, i: nat, j: nat)
    requires i < |s| && j < |s| && i != j && Distinct(s) && s[i].obj != NULL && Index(keys, s[i].key) == j
    ensures Misplaced(Swapped(s, i, j), keys) < Misplaced(s, keys)
    ensures Placed(Swapped(s, i, j), keys, j)
    ensures s[j].obj != NULL ==> !Placed(s, keys, j)
  {
    hide Index;
    var s' := Swapped(s, i, j);
    assert Index(keys, s[j].key) == j ==> keys[j] == s[j].key;
    forall k | k in Misplaced(s', keys) ensures k in Misplaced(s, keys) {
      assert k != j;
    }
    assert i in Misplaced(s, keys);
    if s[j].obj != NULL {
      assert j in Misplaced(s, keys) && j !in Misplaced(s', keys);
    } else {
      assert i !in Misplaced(s', keys);
    }
  }

  lemma {:induction false} DropPlaces(s: seq<Slot>, keys: seq<int>, i: nat, key: int)
    requires i < |s| && s[i].obj != NULL && Index(keys, s[i].key) == -1
    ensures Misplaced(Dropped(s, i, key), keys) < Misplaced(s, keys)
  {
    hide Index;
    var s' := Dropped(s, i, key);
    forall k | k in Misplaced(s', keys) ensures k in Misplaced(s, keys) {
      assert k != i;
    }
    assert i in Misplaced(s, keys) && i !in Misplaced(s', keys);
  }

  /** Every live slot lies within lo..hi. */
  ghost predicate Within(s: seq<Slot>, lo: int, hi: int) {
    forall i :: 0 <= i < |s| && s[i].obj != NULL ==> lo <= i <= hi
  }

  /** What every swap loop keeps: nothing that survives is lost, nothing is invented, the slots
      before bindex and after hi are right, and the live ones lie within b..e. */
  ghost predicate Sorting(s0: seq<Slot>, s: seq<Slot>, keys: seq<int>, bindex: int, hi: int, b: int, e: int) {
    && |s| == |s0| && Distinct(s) && Survivors(s0, keys) <= Held(s) <= Held(s0) && Within(s, b, e)
    && forall i :: 0 <= i < |s| && (i < bindex || hi < i) ==> Placed(s, keys, i)
  }

  lemma {:induction false} SortStart(s: seq<Slot>, keys: seq<int>, lo: int, hi: int)
    requires Distinct(s) && Within(s, lo, hi)
    ensures Sorting(s, s, keys, lo, hi, lo, hi)
  {
  }

  /** A slot that is empty, or where it belongs. */
  lemma {:induction false} SortNext(s0: seq<Slot>, s: seq<Slot>, keys: seq<int>, bindex: int, hi: int, b: int, e: int)
    requires Sorting(s0, s, keys, bindex, hi, b, e) && 0 <= bindex < |s|
    requires s[bindex].obj == NULL || Index(keys, s[bindex].key) == bindex
    ensures Sorting(s0, s, keys, bindex + 1, hi, b, e)
  {
    hide Index, Survivors, Held, Distinct;
    assert Placed(s, keys, bindex);
  }

  /** A slot whose branch is gone. */
  lemma {:induction false} SortDrop(s0: seq<Slot>, s: seq<Slot>, keys: seq<int>, bindex: int, hi: int, b: int, e: int, key: int)
    requires Sorting(s0, s, keys, bindex, hi, b, e) && 0 <= bindex < |s|
    requires s[bindex].obj != NULL && Index(keys, s[bindex].key) == -1
    ensures Sorting(s0, Dropped(s, bindex, key), keys, bindex + 1, hi, b, e)
    ensures Misplaced(Dropped(s, bindex, key), keys) < Misplaced(s, keys)
  {
    hide Held, Distinct, Misplaced;
    DropHeld(s, bindex, key);
    DropPlaces(s, keys, bindex, key);
    var s' := Dropped(s, bindex, key);
    assert s[bindex] !in Survivors(s0, keys);
    forall i | 0 <= i < |s'| && (i < bindex + 1 || hi < i) ensures Placed(s', keys, i) {
      assert i != bindex ==> Placed(s, keys, i) && s'[i] == s[i];
    }
  }

  /** A slot that is swapped to where it belongs; the same index is looked at again unless the
      slot it came from is empty now. */
  lemma {:induction false} SortSwap(s0: seq<Slot>, s: seq<Slot>, keys: seq<int>, bindex: int, hi: int, b: int, e: int,
                                    hi': int, b': int, e': int)
    requires Sorting(s0, s, keys, bindex, hi, b, e) && 0 <= bindex < |s| && |keys| <= |s|
    requires s[bindex].obj != NULL && hi' >= hi
    requires 0 <= Index(keys, s[bindex].key) != bindex
    requires b' <= b && e' >= e && b' <= Index(keys, s[bindex].key) <= e'
    ensures var j := Index(keys, s[bindex].key); var s' := Swapped(s, bindex, j);
      && Misplaced(s', keys) < Misplaced(s, keys)
      && Sorting(s0, s', keys, if s[j].obj != NULL then bindex else bindex + 1, hi', b', e')
  {
    hide Held, Distinct, Survivors, Index, Misplaced;
    var j := Index(keys, s[bindex].key);
    SwapHeld(s, bindex, j);
    SwapPlaces(s, keys, bindex, j);
    var s' := Swapped(s, bindex, j);
    var next := if s[j].obj != NULL then bindex else bindex + 1;
    forall i | 0 <= i < |s'| && (i < next || hi' < i) ensures Placed(s', keys, i) {
      if i != bindex && i != j {
        assert Placed(s, keys, i) && s'[i] == s[i];
      }
    }
  }

  /** When the loop ends: every survivor is at the index of its branch, the others are gone. */
  lemma {:induction false} SortEnd(s0: seq<Slot>, s: seq<Slot>, keys: seq<int>, bindex: int, hi: int, b: int, e: int)
    requires Sorting(s0, s, keys, bindex, hi, b, e) && bindex > hi
    ensures AllPlaced(s, keys) && Held(s) == Survivors(s0, keys) && Distinct(s) && Within(s, b, e)
  {
    hide Distinct, Index;
    forall x | x in Held(s) ensures x in Survivors(s0, keys) {
      var i :| 0 <= i < |s| && s[i].obj != NULL && s[i] == x;
      assert Placed(s, keys, i);
      assert Index(keys, x.key) != -1;
    }
  }

  /** What is in its place is there alone. */
  lemma {:induction false} PlacedDistinct(s: seq<Slot>, keys: seq<int>)
    requires AllPlaced(s, keys)
    ensures Distinct(s)
  {
    hide Index;
    forall i, j | 0 <= i < j < |s| && s[i].obj != NULL && s[j].obj != NULL ensures s[i].key != s[j].key {
      assert Placed(s, keys, i) && Placed(s, keys, j);
    }
  }

  /** The swap of two slots in place. */
  method Swap(a: array<Slot>, i: nat, j: nat)
    requires i < a.Length && j < a.Length
    modifies a
    ensures a[..] == Swapped(old(a[..]), i, j)
  {
    var tmp := a[j];
    a[j] := a[i];
    a[i] := tmp;
  }
}
