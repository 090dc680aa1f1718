/** sbinfo.c: branch ids, of a type that wraps around. */
module BranchIds {
  import opened Slots

  // aufs_bindex_t is a short, or a char when at most 127 branches are configured
  const BRANCH_MAX: nat := 32767
  const HALF: int := 32768

  predicate IdOk(id: int) {
    -HALF <= id < HALF
  }

  /** ++ on an aufs_bindex_t. */
  function Next(id: int): (r: int)
    requires IdOk(id)
    ensures IdOk(r)
  {
    if id + 1 == HALF then -HALF else id + 1
  }

  /** The value n steps on. */
  function Steps(id: int, n: nat): (r: int)
    requires IdOk(id) && n <= 2 * HALF
    ensures IdOk(r)
  {
    if id + n < HALF then id + n else id + n - 2 * HALF
  }

  /** All the values there are come up within one turn. */
  lemma {:induction false} TurnHits(id: int, v: int) returns (n: nat)
    requires IdOk(id) && IdOk(v)
    ensures 1 <= n <= 2 * HALF && Steps(id, n) == v
  {
    n := if v > id then v - id else v - id + 2 * HALF;
  }

  ghost function Range(lo: int, hi: int): (r: set<int>)
    ensures forall v :: v in r <==> lo <= v < hi
    decreases hi - lo
  {
    if lo < hi then Range(lo, hi - 1) + {hi - 1} else {}
  }

  lemma {:induction false} RangeSize(lo: int, hi: int)
    requires lo <= hi
    ensures |Range(lo, hi)| == hi - lo
    decreases hi - lo
  {
    if lo < hi {
      RangeSize(lo, hi - 1);
    }
  }

  ghost function Elems(ids: seq<int>): set<int> {
    set v | v in ids
  }

  lemma {:induction false} ElemsSize(ids: seq<int>)
    ensures |Elems(ids)| <= |ids|
  {
    if ids == [] {
      assert Elems(ids) == {};
    } else {
      ElemsSize(ids[1..]);
      assert Elems(ids) == Elems(ids[1..]) + {ids[0]};
    }
  }

  lemma {:induction false} SubsetSize(a: set<int>, b: set<int>)
    requires a <= b
    ensures |a| <= |b|
  {
    assert b == a + (b - a);
  }

  /** The pigeonhole: the branches cannot hold every non-zero id. */
  lemma {:induction false} SomeFree(ids: seq<int>) returns (v: int)
    requires |ids| <= BRANCH_MAX
    ensures IdOk(v) && v != 0 && v !in ids
  {
    var all := Range(-HALF, HALF) - {0};
    RangeSize(-HALF, HALF);
    ElemsSize(ids);
    assert exists v :: v in all && v !in Elems(ids) by {
      if forall v :: v in all ==> v in Elems(ids) {
        SubsetSize(all, Elems(ids));
      }
    }
    v :| v in all && v !in Elems(ids);
  }

  /** id is the first value after last, n steps on, that is neither zero nor in use. */
  ghost predicate FirstFree(last: int, ids: seq<int>, id: int, n: nat)
    requires IdOk(last)
  {
    && 1 <= n <= 2 * HALF && id == Steps(last, n) && id != 0 && id !in ids
    && forall k: nat :: 1 <= k < n ==> Steps(last, k) == 0 || Steps(last, k) in ids
  }

  class IdCounter {
    // si_last_br_id
    var last: int

    ghost predicate Valid()
      reads this
    {
      IdOk(last)
    }

    constructor ()
      ensures Valid() && last == 0
    {
      last := 0;
    }

    /** new_br_id: it ends although the counter wraps, and skips zero and the ids in use. */
    method NewBrId(ids: seq<int>) returns (id: int, ghost n: nat)
      requires Valid() && |ids| <= BRANCH_MAX
      modifies this
      ensures Valid() && last == id && FirstFree(old(last), ids, id, n)
    {
      var found := false;
      n := 0;
      id := last;
      ghost var v := SomeFree(ids);
      ghost var turn := TurnHits(last, v);
      while !found
        invariant Valid() && n <= turn && last == Steps(old(last), n) && (n == 0 || id == last)
        invariant !found ==> n < turn && forall k: nat :: 1 <= k <= n ==> Steps(old(last), k) == 0 || Steps(old(last), k) in ids
        invariant found ==> FirstFree(old(last), ids, id, n)
        decreases turn - n, !found
      {
        last := Next(last);
        id := last;
        n := n + 1;
        if id != 0 {
          var r := Find(ids, id);
          found := r < 0;
        }
      }
    }
  }

  /** A counter that has gone around gives a deleted branch's id to the next branch: with ids 5
      and 6 live and the counter at 4, deleting 5 and adding a branch issues 5 again. */
  lemma {:induction false} Reissued()
    ensures FirstFree(4, [6], 5, 1) && 5 in [5, 6]
    ensures forall id, n :: FirstFree(4, [6], id, n) ==> id == 5
  {
    assert Steps(4, 1) == 5 && 5 !in [6];
  }
}
