/** The cached arrays of an inode, a dentry and a file follow a changed branch table: the
    "swap and loop again" loops of inode.c, dentry.c and file.c. */
module Reindex {
  import opened Names
  import opened Slots
  import opened Util

  ghost predicate KeysDistinct(keys: seq<int>) {
    forall i, j :: 0 <= i < j < |keys| && keys[i] != NULL ==> keys[i] != keys[j]
  }

  lemma {:induction false} IndexUnique(keys: seq<int>, i: nat)
    requires KeysDistinct(keys) && i < |keys| && keys[i] != NULL
    ensures Index(keys, keys[i]) == i
  {
    forall k | 0 <= k < i ensures keys[..i][k] != keys[i] {
      assert keys[..i][k] == keys[k];
    }
    FirstIsIndex(keys, keys[i], i);
  }

  lemma {:induction false} DropOne(s0: seq<Slot>, s: seq<Slot>, keys: seq<int>, bindex: int, hi: int, b: int, e: int, key: int)
    requires Sorting(s0, s, keys, bindex, hi, b, e) && 0 <= bindex < |s| && s[bindex].obj != NULL
    ensures |Held(Dropped(s, bindex, key))| == |Held(s)| - 1
  {
    hide Index, Survivors, Within;
    DropHeld(s, bindex, key);
    assert s[bindex] in Held(s);
  }

  lemma {:induction false} SwapNone(s0: seq<Slot>, s: seq<Slot>, keys: seq<int>, bindex: int, hi: int, b: int, e: int, j: nat)
    requires Sorting(s0, s, keys, bindex, hi, b, e) && 0 <= bindex < |s| && j < |s|
    ensures Held(Swapped(s, bindex, j)) == Held(s)
  {
    hide Index, Survivors, Within;
    SwapHeld(s, bindex, j);
  }

  lemma {:induction false} FillOne(s: seq<Slot>, ids: seq<int>, k: nat, x: Slot)
    requires AllPlaced(s, ids) && k < |s| && k < |ids| && s[k].obj == NULL && x.obj != NULL && x.key == ids[k] && KeysDistinct(ids)
    requires ids[k] != NULL
    ensures |Held(s[k := x])| == |Held(s)| + 1
  {
    hide Index, KeysDistinct;
    IndexUnique(ids, k);
    FillHeld(s, k, x);
    forall i | 0 <= i < |s| && s[i].obj != NULL ensures s[i] != x {
      assert Placed(s, ids, i);
    }
  }

  /** What growing the array does to its slots: nothing to the live ones. */
  lemma {:induction false} GrownSlots(s: seq<Slot>, t: seq<Slot>, lo: int, hi: int, n: nat)
    requires 0 <= hi < |s| && Within(s, lo, hi) && Distinct(s) && hi < |t| && t[..hi + 1] == s[..hi + 1]
    requires forall i :: hi < i < |t| ==> t[i].obj == NULL
    ensures Within(t, lo, hi) && Distinct(t) && Held(t) == Held(s)
  {
    forall i | 0 <= i <= hi ensures t[i] == s[i] {
      assert t[..hi + 1][i] == s[..hi + 1][i];
    }
    assert forall x :: x in Held(s) ==> x in Held(t);
  }

  /** The slot at bstart is live, if any is. */
  ghost predicate StartsLive(s: seq<Slot>, bstart: int) {
    (exists i :: 0 <= i < |s| && s[i].obj != NULL) ==> 0 <= bstart < |s| && s[bstart].obj != NULL
  }

  class IInfo {
    // ii_hinode: lower inode and branch id, by branch index
    var hinode: array<Slot>
    var bstart: int
    var bend: int

    ghost predicate Valid()
      reads this, hinode
    {
      0 <= bstart <= bend < hinode.Length && Distinct(hinode[..]) && Within(hinode[..], bstart, bend)
    }

    /** The first loop of au_refresh_hinode: permute in place, ids being the new table. */
    method Permute(ids: seq<int>) returns (update: nat)
      requires Valid() && |ids| <= hinode.Length
      modifies this`bstart, this`bend, hinode
      ensures Valid() && AllPlaced(hinode[..], ids)
      ensures Held(hinode[..]) == Survivors(old(hinode[..]), ids)
      ensures update == |Held(old(hinode[..]))| - |Held(hinode[..])|
      ensures bend < old(bend) + 1 || bend < |ids|
    {
      hide Distinct, Held, Survivors, Placed, AllPlaced, Within, Sorting, Misplaced, Index;
      update := 0;
      ghost var s0 := hinode[..];
      SortStart(s0, ids, bstart, bend);
      var bindex := bstart;
      while bindex <= bend
        invariant 0 <= bstart <= bend < hinode.Length && 0 <= bindex
        invariant Sorting(s0, hinode[..], ids, bindex, bend, bstart, bend)
        invariant bend == old(bend) || bend < |ids|
        invariant update == |Held(s0)| - |Held(hinode[..])|
        decreases Misplaced(hinode[..], ids), bend + 1 - bindex
      {
        ghost var s := hinode[..];
        var p := hinode[bindex];
        if p.obj == NULL {
          SortNext(s0, s, ids, bindex, bend, bstart, bend);
          bindex := bindex + 1;
          continue;
        }
        var newBindex := Find(ids, p.key);
        if newBindex == bindex {
          SortNext(s0, s, ids, bindex, bend, bstart, bend);
          bindex := bindex + 1;
          continue;
        }
        if newBindex < 0 {
          update := update + 1;
          IndexRange(ids, p.key);
          SortDrop(s0, s, ids, bindex, bend, bstart, bend, p.key);
          DropOne(s0, s, ids, bindex, bend, bstart, bend, p.key);
          hinode[bindex] := Slot(NULL, p.key);
          assert hinode[..] == Dropped(s, bindex, p.key);
          bindex := bindex + 1;
          continue;
        }
        ghost var b, e := bstart, bend;
        if newBindex < bstart {
          bstart := newBindex;
        }
        if bend < newBindex {
          bend := newBindex;
        }
        IndexRange(ids, p.key);
        SortSwap(s0, s, ids, bindex, e, b, e, bend, bstart, bend);
        SwapNone(s0, s, ids, bindex, e, b, e, newBindex);
        var again := hinode[newBindex].obj != NULL;
        Swap(hinode, bindex, newBindex);
        if !again {
          bindex := bindex + 1;
        }
      }
      SortEnd(s0, hinode[..], ids, bindex, bend, bstart, bend);
    }

    /** The second loop: lower inodes the dentry (dh, from branch lo on) has and the inode does
        not; k says how far it came. */
    method AddLower(ids: seq<int>, lo: nat, dh: seq<nat>) returns (err: int, update: nat, ghost k: nat)
      requires Valid() && AllPlaced(hinode[..], ids)
      requires KeysDistinct(ids) && NULL !in ids && lo <= |dh| <= |ids| <= hinode.Length
      modifies this`bstart, this`bend, hinode
      ensures Valid() && AllPlaced(hinode[..], ids) && lo <= k <= |dh|
      ensures Held(hinode[..]) == old(Held(hinode[..])) + FromDentry(ids, lo, dh, k)
      ensures update == |Held(hinode[..])| - |old(Held(hinode[..]))|
      ensures err == 0 ==> k == |dh|
      ensures err != 0 ==> err == -ESTALE && k < |dh| && dh[k] != NULL && hinode[k].obj !in [NULL, dh[k]]
    {
      hide Distinct, Held, AllPlaced, Index, Within, FromDentry, KeysDistinct;
      err, update := 0, 0;
      var bindex := lo;
      k := lo;
      NoneFromDentry(ids, lo, dh);
      ghost var s0 := hinode[..];
      while bindex < |dh|
        invariant lo <= bindex == k <= |dh| && 0 <= bstart <= bend < hinode.Length
        invariant Joined(s0, hinode[..], ids, lo, dh, bindex, bstart, bend)
        invariant update == |Held(hinode[..])| - |Held(s0)|
      {
        if dh[bindex] != NULL {
          if bstart <= bindex <= bend && hinode[bindex].obj != NULL {
            if hinode[bindex].obj != dh[bindex] {
              JoinedEnd(s0, hinode[..], ids, lo, dh, bindex, bstart, bend);
              return -ESTALE, update, k;
            }
            JoinSame(s0, hinode[..], ids, lo, dh, bindex, bstart, bend);
          } else {
            JoinNew(s0, hinode[..], ids, lo, dh, bindex, bstart, bend);
            if bindex < bstart {
              bstart := bindex;
            }
            if bend < bindex {
              bend := bindex;
            }
            ghost var s := hinode[..];
            hinode[bindex] := Slot(dh[bindex], ids[bindex]);
            assert hinode[..] == s[bindex := Slot(dh[bindex], ids[bindex])];
            update := update + 1;
          }
        } else {
          JoinNone(s0, hinode[..], ids, lo, dh, bindex, bstart, bend);
        }
        bindex := bindex + 1;
        k := bindex;
      }
      JoinedEnd(s0, hinode[..], ids, lo, dh, bindex, bstart, bend);
    }

    /** The last two loops: draw the bounds in. */
    method Tighten()
      requires Valid()
      modifies this`bstart, this`bend
      ensures Valid() && Held(hinode[..]) == old(Held(hinode[..]))
      ensures StartsLive(hinode[..], bstart)
      ensures bend == old(bend) || hinode[bend].obj != NULL
      ensures forall i :: bend < i < hinode.Length ==> hinode[i].obj == NULL
      ensures hinode[bend].obj != NULL || forall i :: bstart < i < hinode.Length ==> hinode[i].obj == NULL
    {
      hide Distinct, Held;
      var e := bend;
      var bindex := 0;
      while bindex <= e
        invariant 0 <= bindex <= e + 1 && forall i :: 0 <= i < bindex ==> hinode[i].obj == NULL
        invariant bstart == old(bstart) && bend == e
      {
        if hinode[bindex].obj != NULL {
          bstart := bindex;
          break;
        }
        bindex := bindex + 1;
      }
      bindex := e;
      while bindex > bstart
        invariant bstart <= bindex <= e == bend && forall i :: bindex < i <= e ==> hinode[i].obj == NULL
      {
        if hinode[bindex].obj != NULL {
          bend := bindex;
          break;
        }
        bindex := bindex - 1;
      }
    }

    /** au_refresh_hinode. Every lower inode whose branch is still there ends at the index of its
        branch, those of deleted branches are gone, and those only the dentry had are added. */
    method Refresh(ids: seq<int>, lo: nat, dh: seq<nat>) returns (err: int, update: nat, ghost k: nat)
      requires Valid() && KeysDistinct(ids) && NULL !in ids && lo <= |dh| <= |ids|
      modifies this, hinode
      ensures err != -ENOMEM ==> Valid() && AllPlaced(hinode[..], ids) && lo <= k <= |dh|
      ensures err != -ENOMEM ==>
                Held(hinode[..]) == Survivors(old(hinode[..]), ids) + FromDentry(ids, lo, dh, k)
      // how many were let go and taken
      ensures err != -ENOMEM ==> var left := Survivors(old(hinode[..]), ids);
                                 update == (|Held(old(hinode[..]))| - |left|) + (|Held(hinode[..])| - |left|)
      // what au_h_iptr gives is a lower inode, if there is any
      ensures err != -ENOMEM ==> StartsLive(hinode[..], bstart)
      ensures err == 0 ==> k == |dh|
      ensures err == -ESTALE ==> k < |dh| && k < hinode.Length && dh[k] != NULL && hinode[k].obj !in [NULL, dh[k]]
      ensures err == -ENOMEM ==> Valid() && hinode[..] == old(hinode[..])
      ensures err in [0, -ENOMEM, -ESTALE] && (!FAULTS ==> err != -ENOMEM)
    {
      hide Distinct, Held, Survivors, AllPlaced, Within, FromDentry, KeysDistinct, Index;
      k, update := 0, 0;
      ghost var s := hinode[..];
      var q;
      err, q := Kzrealloc(hinode, bend + 1, |ids|, Slot(NULL, 0));
      if err != 0 {
        return;
      }
      GrownLive(s, q[..], bstart, bend, |ids|);
      hinode := q;
      update := Permute(ids);
      var more;
      err, more, k := AddLower(ids, lo, dh);
      update := update + more;
      Tighten();
    }
  }

  /** The first kept, the added empty, and nothing live behind: the same live slots. */
  lemma {:induction false} GrownLive(s: seq<Slot>, t: seq<Slot>, lo: int, hi: int, n: nat)
    requires 0 <= hi < |s| && Within(s, lo, hi) && Distinct(s) && hi < |t| && t[..hi + 1] == s[..hi + 1]
    requires hi + 1 < n ==> n <= |t| && forall i :: hi < i < n ==> t[i] == Slot(NULL, 0)
    requires |t| <= |s| || |t| <= n
    requires forall i :: hi < i < |t| && n <= i && i < |s| ==> t[i] == s[i]
    ensures Within(t, lo, hi) && Distinct(t) && Held(t) == Held(s) && forall keys :: Survivors(t, keys) == Survivors(s, keys)
  {
    hide Distinct, Held;
    forall i | hi < i < |t| ensures t[i].obj == NULL {
      if n <= i {
        assert t[i] == s[i];
      }
    }
    GrownSlots(s, t, lo, hi, n);
  }

  /** The slots a dentry gives to its inode, from branch lo up to k. */
  ghost function FromDentry(ids: seq<int>, lo: nat, dh: seq<nat>, k: nat): set<Slot>
    requires k <= |dh| <= |ids|
  {
    set i | lo <= i < k && dh[i] != NULL :: Slot(dh[i], ids[i])
  }

  lemma {:induction false} NoneFromDentry(ids: seq<int>, lo: nat, dh: seq<nat>)
    requires lo <= |dh| <= |ids|
    ensures FromDentry(ids, lo, dh, lo) == {}
  {
  }

  ghost predicate Joined(s0: seq<Slot>, s: seq<Slot>, ids: seq<int>, lo: nat, dh: seq<nat>, k: nat, b: int, e: int) {
    && |s| == |s0| && k <= |dh| <= |ids| <= |s| && AllPlaced(s, ids) && Within(s, b, e)
    && Held(s) == Held(s0) + FromDentry(ids, lo, dh, k)
  }

  lemma {:induction false} JoinNone(s0: seq<Slot>, s: seq<Slot>, ids: seq<int>, lo: nat, dh: seq<nat>, k: nat, b: int, e: int)
    requires Joined(s0, s, ids, lo, dh, k, b, e) && lo <= k < |dh| && dh[k] == NULL
    ensures Joined(s0, s, ids, lo, dh, k + 1, b, e)
  {
    hide AllPlaced, Within, Held;
    assert FromDentry(ids, lo, dh, k + 1) == FromDentry(ids, lo, dh, k);
  }

  lemma {:induction false} JoinSame(s0: seq<Slot>, s: seq<Slot>, ids: seq<int>, lo: nat, dh: seq<nat>, k: nat, b: int, e: int)
    requires Joined(s0, s, ids, lo, dh, k, b, e) && lo <= k < |dh| && dh[k] != NULL && s[k].obj == dh[k]
    ensures Joined(s0, s, ids, lo, dh, k + 1, b, e)
  {
    hide Within, Index;
    assert Placed(s, ids, k);
    assert s[k] == Slot(dh[k], ids[k]) && s[k] in Held(s);
    assert FromDentry(ids, lo, dh, k + 1) == FromDentry(ids, lo, dh, k) + {s[k]};
  }

  lemma {:induction false} OutsideNull(s: seq<Slot>, b: int, e: int, k: nat)
    requires Within(s, b, e) && k < |s| && (b <= k <= e ==> s[k].obj == NULL)
    ensures s[k].obj == NULL
  {
  }

  lemma {:induction false} JoinNew(s0: seq<Slot>, s: seq<Slot>, ids: seq<int>, lo: nat, dh: seq<nat>, k: nat, b: int, e: int)
    requires Joined(s0, s, ids, lo, dh, k, b, e) && lo <= k < |dh| && dh[k] != NULL && (b <= k <= e ==> s[k].obj == NULL)
    requires KeysDistinct(ids) && NULL !in ids
    ensures Joined(s0, s[k := Slot(dh[k], ids[k])], ids, lo, dh, k + 1, if k < b then k else b, if e < k then k else e)
    ensures |Held(s[k := Slot(dh[k], ids[k])])| == |Held(s)| + 1
  {
    hide Index, Within, KeysDistinct;
    var x := Slot(dh[k], ids[k]);
    var s' := s[k := x];
    IndexUnique(ids, k);
    OutsideNull(s, b, e, k);
    forall i | 0 <= i < |s'| ensures Placed(s', ids, i) {
      assert Placed(s, ids, i);
    }
    assert FromDentry(ids, lo, dh, k + 1) == FromDentry(ids, lo, dh, k) + {x};
    FillHeld(s, k, x);
    FillOne(s, ids, k, x);
    FillWithin(s, k, x, b, e);
  }

  lemma {:induction false} FillHeld(s: seq<Slot>, k: nat, x: Slot)
    requires k < |s| && s[k].obj == NULL && x.obj != NULL
    ensures Held(s[k := x]) == Held(s) + {x}
  {
    var s' := s[k := x];
    forall y | y in Held(s) + {x} ensures y in Held(s') {
      if y == x {
        assert s'[k] == y;
      } else {
        var i :| 0 <= i < |s| && s[i].obj != NULL && s[i] == y;
        assert s'[i] == y;
      }
    }
  }

  lemma {:induction false} FillWithin(s: seq<Slot>, k: nat, x: Slot, b: int, e: int)
    requires k < |s| && Within(s, b, e)
    ensures Within(s[k := x], if k < b then k else b, if e < k then k else e)
  {
  }

  lemma {:induction false} JoinedEnd(s0: seq<Slot>, s: seq<Slot>, ids: seq<int>, lo: nat, dh: seq<nat>, k: nat, b: int, e: int)
    requires Joined(s0, s, ids, lo, dh, k, b, e)
    ensures Distinct(s) && Within(s, b, e)
  {
    hide AllPlaced, Distinct;
    PlacedDistinct(s, ids);
  }

  lemma {:induction false} IndexRange(keys: seq<int>, key: int)
    ensures -1 <= Index(keys, key) < |keys| && (key in keys <==> Index(keys, key) >= 0)
  {
  }

  class HDentries {
    // di_hdentry: lower dentry and its parent, by branch index
    var hdentry: array<Slot>
    var bstart: int
    var bend: int

    ghost predicate Valid()
      reads this, hdentry
    {
      && 0 <= bstart <= bend < hdentry.Length && Distinct(hdentry[..]) && Within(hdentry[..], bstart, bend)
      && forall i :: 0 <= i < hdentry.Length && hdentry[i].obj != NULL ==> hdentry[i].key != NULL
    }

    /** The swap loop of au_refresh_hdentry; ph are the lower dentries of the refreshed parent.
        Its bound stays, what is put behind it is right already. */
    method Permute(ph: seq<int>)
      requires Valid() && KeysDistinct(ph) && |ph| <= hdentry.Length
      modifies hdentry
      ensures AllPlaced(hdentry[..], ph) && Distinct(hdentry[..])
      ensures Held(hdentry[..]) == Survivors(old(hdentry[..]), ph)
    {
      hide Distinct, Held, Survivors, Placed, AllPlaced, Within, Sorting, Misplaced, Index, KeysDistinct;
      ghost var s0 := hdentry[..];
      ghost var last := hdentry.Length - 1;
      SortStart(s0, ph, bstart, bend);
      SortWiden(s0, s0, ph, bstart, bend, bstart, bend, 0, last);
      var bindex := bstart;
      while bindex <= bend
        invariant 0 <= bindex && Sorting(s0, hdentry[..], ph, bindex, bend, 0, last)
        decreases Misplaced(hdentry[..], ph), bend + 1 - bindex
      {
        ghost var s := hdentry[..];
        var p := hdentry[bindex];
        if p.obj == NULL {
          SortNext(s0, s, ph, bindex, bend, 0, last);
          bindex := bindex + 1;
          continue;
        }
        SortKey(s0, s, ph, bindex, bend, 0, last);
        if bindex < |ph| && ph[bindex] == p.key {
          IndexUnique(ph, bindex);
          SortNext(s0, s, ph, bindex, bend, 0, last);
          bindex := bindex + 1;
          continue;
        }
        var newBindex := Find(ph, p.key);
        IndexRange(ph, p.key);
        if newBindex < 0 {
          SortDrop(s0, s, ph, bindex, bend, 0, last, p.key);
          hdentry[bindex] := Slot(NULL, p.key);
          assert hdentry[..] == Dropped(s, bindex, p.key);
          bindex := bindex + 1;
          continue;
        }
        SortSwap(s0, s, ph, bindex, bend, 0, last, bend, 0, last);
        var again := hdentry[newBindex].obj != NULL;
        Swap(hdentry, bindex, newBindex);
        if !again {
          bindex := bindex + 1;
        }
      }
      SortEnd(s0, hdentry[..], ph, bindex, bend, 0, last);
    }

    /** The bounds after it: the first and the last live slot, if any. */
    method Bounds(ph: seq<int>)
      requires AllPlaced(hdentry[..], ph) && 0 < |ph| <= hdentry.Length
      modifies this`bstart, this`bend
      ensures Held(hdentry[..]) != {} ==>
                && Within(hdentry[..], bstart, bend) && 0 <= bstart <= bend < |ph| <= hdentry.Length
                && hdentry[bstart].obj != NULL && hdentry[bend].obj != NULL
      ensures Held(hdentry[..]) == {} ==> bstart == old(bstart) && bend == old(bend)
    {
      hide AllPlaced, Index;
      PlacedLow(hdentry[..], ph);
      var i := 0;
      while i < |ph|
        invariant i <= |ph| && bstart == old(bstart) && forall k :: 0 <= k < i ==> hdentry[k].obj == NULL
      {
        if hdentry[i].obj != NULL {
          bstart := i;
          break;
        }
        i := i + 1;
      }
      var j := |ph| - 1;
      while j >= 0
        invariant -1 <= j < |ph| && bend == old(bend)
        invariant forall k :: j < k < |ph| ==> hdentry[k].obj == NULL
      {
        if hdentry[j].obj != NULL {
          bend := j;
          break;
        }
        j := j - 1;
      }
      assert i < |ph| ==> hdentry[..][i] in Held(hdentry[..]);
    }

    /** The array part of au_refresh_hdentry. */
    method Refresh(ph: seq<int>) returns (err: int)
      requires Valid() && KeysDistinct(ph) && 0 < |ph|
      modifies this, hdentry
      ensures err == 0 || (FAULTS && err == -ENOMEM && Valid() && hdentry[..] == old(hdentry[..]))
      ensures err == 0 ==> AllPlaced(hdentry[..], ph) && Held(hdentry[..]) == Survivors(old(hdentry[..]), ph)
      ensures err == 0 && Held(hdentry[..]) != {} ==>
                && Within(hdentry[..], bstart, bend) && 0 <= bstart <= bend < |ph| <= hdentry.Length
                && hdentry[bstart].obj != NULL && hdentry[bend].obj != NULL
    {
      hide Distinct, Held, Survivors, AllPlaced, KeysDistinct, Index, Within;
      ghost var s := hdentry[..];
      var q;
      err, q := Kzrealloc(hdentry, bend + 1, |ph|, Slot(NULL, 0));
      if err != 0 {
        return;
      }
      GrownLive(s, q[..], bstart, bend, |ph|);
      GrownKeys(s, q[..], bstart, bend);
      hdentry := q;
      Permute(ph);
      Bounds(ph);
    }
  }

  lemma {:induction false} GrownKeys(s: seq<Slot>, t: seq<Slot>, lo: int, hi: int)
    requires 0 <= hi < |s| && hi < |t| && t[..hi + 1] == s[..hi + 1] && Within(t, lo, hi)
    requires forall i :: 0 <= i < |s| && s[i].obj != NULL ==> s[i].key != NULL
    ensures forall i :: 0 <= i < |t| && t[i].obj != NULL ==> t[i].key != NULL
  {
    forall i | 0 <= i <= hi ensures t[i] == s[i] {
      assert t[..hi + 1][i] == s[..hi + 1][i];
    }
  }

  lemma {:induction false} SortWiden(s0: seq<Slot>, s: seq<Slot>, keys: seq<int>, bindex: int, hi: int, b: int, e: int, b': int, e': int)
    requires Sorting(s0, s, keys, bindex, hi, b, e) && b' <= b && e <= e'
    ensures Sorting(s0, s, keys, bindex, hi, b', e')
  {
  }

  /** Live slots have keys all along. */
  lemma {:induction false} SortKey(s0: seq<Slot>, s: seq<Slot>, keys: seq<int>, bindex: int, hi: int, b: int, e: int)
    requires Sorting(s0, s, keys, bindex, hi, b, e) && 0 <= bindex < |s| && s[bindex].obj != NULL
    requires forall i :: 0 <= i < |s0| && s0[i].obj != NULL ==> s0[i].key != NULL
    ensures s[bindex].key != NULL
  {
    hide Index, Distinct, Survivors, Within;
    assert s[bindex] in Held(s);
    var i :| 0 <= i < |s0| && s0[i].obj != NULL && s0[i] == s[bindex];
  }

  /** What is in its place lies within the table. */
  lemma {:induction false} PlacedLow(s: seq<Slot>, keys: seq<int>)
    requires AllPlaced(s, keys)
    ensures Within(s, 0, |keys| - 1)
  {
    forall i | 0 <= i < |s| && s[i].obj != NULL ensures i < |keys| {
      assert Placed(s, keys, i);
      IndexRange(keys, s[i].key);
    }
  }

  /** The files still open after refresh_file's last loops: what was put was without an inode
      (gone), or above the branch of a mapped or unlinked file. */
  ghost predicate Kept(s0: seq<Slot>, s: seq<Slot>, gone: set<nat>, above: int) {
    && |s| == |s0|
    && forall i :: 0 <= i < |s| ==> s[i] == s0[i] || (s[i] == Slot(NULL, NULL) && (s0[i].obj in gone || i < above))
  }

  lemma {:induction false} KeptTwice(s0: seq<Slot>, s1: seq<Slot>, s2: seq<Slot>, gone: set<nat>, above: int)
    requires (Kept(s0, s1, {}, above) || Kept(s0, s1, gone, 0)) && Kept(s1, s2, gone, 0)
    ensures Kept(s0, s2, gone, above)
  {
  }

  class FInfo {
    // fi_hfile: lower file and its branch, by branch index
    var hfile: array<Slot>
    var bstart: int
    var bend: int

    ghost predicate Valid()
      reads this, hfile
    {
      0 <= bstart <= bend < hfile.Length && Distinct(hfile[..]) && Within(hfile[..], bstart, bend)
    }

    /** The swap loop of refresh_file, keyed by branch pointer; a file put loses its branch. */
    method Permute(brs: seq<int>)
      requires Valid() && |brs| <= hfile.Length
      modifies hfile
      ensures AllPlaced(hfile[..], brs) && Distinct(hfile[..])
      ensures Held(hfile[..]) == Survivors(old(hfile[..]), brs)
    {
      hide Distinct, Held, Survivors, Placed, AllPlaced, Within, Sorting, Misplaced, Index;
      ghost var s0 := hfile[..];
      ghost var last := hfile.Length - 1;
      SortStart(s0, brs, bstart, bend);
      SortWiden(s0, s0, brs, bstart, bend, bstart, bend, 0, last);
      var bindex := bstart;
      while bindex <= bend
        invariant 0 <= bindex && Sorting(s0, hfile[..], brs, bindex, bend, 0, last)
        decreases Misplaced(hfile[..], brs), bend + 1 - bindex
      {
        ghost var s := hfile[..];
        var p := hfile[bindex];
        if p.obj == NULL {
          SortNext(s0, s, brs, bindex, bend, 0, last);
          bindex := bindex + 1;
          continue;
        }
        var newBindex := Find(brs, p.key);
        IndexRange(brs, p.key);
        if newBindex == bindex {
          SortNext(s0, s, brs, bindex, bend, 0, last);
          bindex := bindex + 1;
          continue;
        }
        if newBindex < 0 {
          SortDrop(s0, s, brs, bindex, bend, 0, last, NULL);
          hfile[bindex] := Slot(NULL, NULL);
          assert hfile[..] == Dropped(s, bindex, NULL);
          bindex := bindex + 1;
          continue;
        }
        SortSwap(s0, s, brs, bindex, bend, 0, last, bend, 0, last);
        var again := hfile[newBindex].obj != NULL;
        Swap(hfile, bindex, newBindex);
        if !again {
          bindex := bindex + 1;
        }
      }
      SortEnd(s0, hfile[..], brs, bindex, bend, 0, last);
    }

    /** The loop over files from the top: stop at the first one that has an inode. */
    method TrimStart(n: nat, gone: set<nat>)
      requires n <= hfile.Length && Within(hfile[..], 0, n - 1)
      modifies this`bstart, hfile
      ensures Kept(old(hfile[..]), hfile[..], gone, 0) && 0 <= bstart <= n && Within(hfile[..], bstart, n - 1)
      ensures bstart < n ==> hfile[bstart].obj !in gone && hfile[bstart].obj != NULL
    {
      bstart := 0;
      while bstart < n
        invariant 0 <= bstart <= n && Kept(old(hfile[..]), hfile[..], gone, 0) && Within(hfile[..], bstart, n - 1)
      {
        if hfile[bstart].obj != NULL {
          if hfile[bstart].obj !in gone {
            return;
          }
          hfile[bstart] := Slot(NULL, NULL);
        }
        bstart := bstart + 1;
      }
    }

    /** For a mapped or unlinked file: put everything above the branch it was opened on. */
    method TrimPinned(n: nat, pin: int)
      requires n <= hfile.Length && pin < n && Within(hfile[..], 0, n - 1)
      modifies this`bstart, hfile
      ensures Kept(old(hfile[..]), hfile[..], {}, pin) && Within(hfile[..], bstart, n - 1)
      ensures bstart == if pin < 0 then 0 else pin
    {
      bstart := 0;
      while bstart < pin
        invariant 0 <= bstart && (bstart <= pin || bstart == 0)
        invariant Kept(old(hfile[..]), hfile[..], {}, pin) && Within(hfile[..], bstart, n - 1)
      {
        if hfile[bstart].obj != NULL {
          hfile[bstart] := Slot(NULL, NULL);
        }
        bstart := bstart + 1;
      }
    }

    /** The loop over files from the bottom. */
    method TrimEnd(n: nat, gone: set<nat>)
      requires 0 <= bstart <= n <= hfile.Length && Within(hfile[..], bstart, n - 1)
      modifies this`bend, hfile
      ensures Kept(old(hfile[..]), hfile[..], gone, 0) && Within(hfile[..], bstart, bend) && bstart - 1 <= bend < n
      ensures bstart <= bend ==> hfile[bend].obj !in gone && hfile[bend].obj != NULL
      ensures bstart < n && old(hfile[bstart].obj) !in gone && old(hfile[bstart].obj) != NULL ==> hfile[bstart] == old(hfile[bstart])
    {
      bend := n - 1;
      while bend >= bstart
        invariant bstart - 1 <= bend < n && Kept(old(hfile[..]), hfile[..], gone, 0) && Within(hfile[..], bstart, bend)
      {
        if hfile[bend].obj != NULL {
          if hfile[bend].obj !in gone {
            return;
          }
          hfile[bend] := Slot(NULL, NULL);
        }
        bend := bend - 1;
      }
    }

    /** The array part of refresh_file: brs and ids are the branch pointers and ids of the new
        table, brid the id of the branch the file was first opened on. */
    method Refresh(brs: seq<int>, ids: seq<int>, brid: int, gone: set<nat>, pinned: bool) returns (err: int, ghost sorted: seq<Slot>)
      requires Valid() && 0 < |brs| == |ids|
      modifies this, hfile
      ensures err == 0 || (FAULTS && err == -ENOMEM && Valid() && hfile[..] == old(hfile[..]))
      ensures err == 0 ==> AllPlaced(sorted, brs) && Held(sorted) == Survivors(old(hfile[..]), brs)
      ensures err == 0 ==> Kept(sorted, hfile[..], gone, if pinned then Index(ids, brid) else 0)
      ensures err == 0 ==> Within(hfile[..], bstart, bend) && 0 <= bstart && bend < |brs| <= hfile.Length
      ensures err == 0 && pinned ==> bstart == if brid in ids then Index(ids, brid) else 0
      ensures err == 0 && bstart <= bend ==> hfile[bend].obj !in gone + {NULL}
      ensures err == 0 && !pinned && bstart <= bend ==> hfile[bstart].obj !in gone + {NULL}
    {
      hide Distinct, Held, Survivors, AllPlaced, Index, Within, Kept;
      ghost var s := hfile[..];
      sorted := s;
      var q;
      err, q := Kzrealloc(hfile, bend + 1, |brs|, Slot(NULL, 0));
      if err != 0 {
        return;
      }
      GrownLive(s, q[..], bstart, bend, |brs|);
      hfile := q;
      Permute(brs);
      sorted := hfile[..];
      PlacedLow(sorted, brs);
      var pin := Find(ids, brid);
      IndexRange(ids, brid);
      if !pinned {
        TrimStart(|brs|, gone);
      } else {
        TrimPinned(|brs|, pin);
      }
      ghost var mid := hfile[..];
      TrimEnd(|brs|, gone);
      KeptTwice(sorted, mid, hfile[..], gone, if pinned then pin else 0);
    }
  }

  /** What a refresh means for the map from branch id to lower inode: it is the old map cut down
      to the branches that are still there, read at their new indices. */
  lemma {:induction false} MapRestricted(s0: seq<Slot>, s: seq<Slot>, ids: seq<int>, i: nat)
    requires AllPlaced(s, ids) && Held(s) == Survivors(s0, ids) && KeysDistinct(ids) && NULL !in ids && i < |ids| <= |s|
    ensures s[i].obj != NULL ==> s[i].key == ids[i] && s[i] in Held(s0)
    ensures forall x :: x in Held(s0) && x.key == ids[i] ==> s[i] == x
  {
    hide Index;
    if s[i].obj != NULL {
      assert Placed(s, ids, i) && s[i] in Held(s);
      IndexRange(ids, s[i].key);
    }
    forall x | x in Held(s0) && x.key == ids[i] ensures s[i] == x {
      assert x in Survivors(s0, ids);
      var k :| 0 <= k < |s| && s[k].obj != NULL && s[k] == x;
      assert Placed(s, ids, k);
      IndexUnique(ids, i);
    }
  }
}
