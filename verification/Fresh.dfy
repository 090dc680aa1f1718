/** What a fresh lookup of a name computes, stated without the scan that computes it. */
module Fresh {
  import opened Names
  import opened Stack
  import opened Lookup

  /** The dentry after a first, fault-free lookup of k below the directory p. */
  function FreshInfo(br: seq<Branch>, p: DInfo, k: Key): DInfo
    requires DirOk(|br|, p)
  {
    Looked(br, p, k, p.bstart, None, Blank(|br|)).1
  }

  /** The branches that make up k. */
  function Merged(br: seq<Branch>, p: DInfo, k: Key): seq<nat>
    requires DirOk(|br|, p)
  {
    Merge(br, p, k, p.bstart, None)
  }

  lemma {:induction false} MergeSorted(br: seq<Branch>, p: DInfo, k: Key, b: nat, typ: Option<FType>)
    requires b <= |br| == |p.h|
    ensures forall i, j :: 0 <= i < j < |Merge(br, p, k, b, typ)| ==>
                             Merge(br, p, k, b, typ)[i] < Merge(br, p, k, b, typ)[j]
    decreases |br| - b
  {
    if b < |br| {
      MergeSorted(br, p, k, b + 1, typ);
      MergeSorted(br, p, k, b + 1, Some(DIR));
      var rest := Merge(br, p, k, b + 1, Some(DIR));
      forall i | 0 <= i < |rest| ensures b < rest[i] {
        assert rest[i] in rest;
      }
    }
  }

  /** Where the scan leaves bstart and bend. */
  lemma {:induction false} ScanEdges(br: seq<Branch>, p: DInfo, k: Key, b: nat, allowNeg: bool, typ: Option<FType>, di: DInfo)
    requires b <= |br| == |p.h| == |di.h| && di.bwh == -1 && di.bdiropq == -1 && Unset(di, b)
    requires di.bend < b && -1 <= di.bstart < b && (allowNeg ==> typ.None?)
    ensures var r, m := Scan(br, p, k, b, allowNeg, typ, di).1, Merge(br, p, k, b, typ);
            var neg := if allowNeg then NegSlot(br, p, k, b) else -1;
            && r.bstart == (if di.bstart >= 0 then di.bstart else if neg >= 0 then neg else if m != [] then m[0] else -1)
            && r.bend == (if m != [] then m[|m| - 1] else if neg >= 0 then neg else di.bend)
    decreases |br| - b
  {
    hide DInfo.DbTailDir;
    if b < |br| {
      var (slot, di') := Probed(br[b], k, b, allowNeg, typ, di);
      if !p.On(b) {
        ScanEdges(br, p, k, b + 1, allowNeg, typ, di);
      } else if di'.bwh == -1 && !slot.Pos? {
        ScanEdges(br, p, k, b + 1, false, typ, di');
      } else if di'.bwh == -1 && typ.GetOr(slot.ent.typ) == DIR && di'.bdiropq == -1 {
        ScanEdges(br, p, k, b + 1, false, Some(DIR), di');
      }
    }
  }

  /** The merge of one type, branch by branch. */
  lemma {:induction false} MergeDirIff(br: seq<Branch>, p: DInfo, k: Key, b: nat, j: nat)
    requires b <= |br| == |p.h| && b <= j < |br|
    ensures j in Merge(br, p, k, b, Some(DIR)) <==>
              && CellAt(br, p, k, j).Hit? && CellAt(br, p, k, j).ent.typ == DIR
              && forall i :: b <= i < j ==> Passes(br, p, k, i)
    decreases |br| - b
  {
    if b < j {
      MergeDirIff(br, p, k, b + 1, j);
      assert Passes(br, p, k, b) || !Passes(br, p, k, b);
    }
  }

  /** Branch i lets the merge of a directory go on below it. */
  ghost predicate Passes(br: seq<Branch>, p: DInfo, k: Key, i: nat)
    requires i < |br| == |p.h|
  {
    match CellAt(br, p, k, i)
    case Skip => true
    case Stop => false
    case Hit(e) => !(e.typ == DIR && e.opq && br[i].Whable())
  }

  /** The merge, specified: branch j contributes to k iff it holds k, no whiteout stands
      at or above it, and either nothing stands above it at all, or it and the topmost
      holder are directories and no directory above it is opaque. */
  lemma {:induction false} MergeIff(br: seq<Branch>, p: DInfo, k: Key, b: nat, j: nat)
    requires b <= |br| == |p.h| && b <= j < |br|
    ensures j in Merge(br, p, k, b, None) <==>
              && CellAt(br, p, k, j).Hit?
              && (forall i :: b <= i < j ==> CellAt(br, p, k, i) != Stop)
              && ((forall i :: b <= i < j ==> CellAt(br, p, k, i) == Skip)
                  || (&& CellAt(br, p, k, j).ent.typ == DIR
                      && TopIsDir(br, p, k, b)
                      && forall i :: b <= i < j ==> Passes(br, p, k, i)))
    decreases |br| - b
  {
    hide Merged;
    var cell := CellAt(br, p, k, b);
    if b < j {
      if cell == Skip {
        MergeIff(br, p, k, b + 1, j);
      } else {
        assert !(forall i :: b <= i < j ==> CellAt(br, p, k, i) == Skip);
        MergeDirIff(br, p, k, b + 1, j);
        if j in Merge(br, p, k, b, None) {
          forall i | b <= i < j ensures Passes(br, p, k, i) && CellAt(br, p, k, i) != Stop {
            assert i == b || Passes(br, p, k, i);
          }
        } else if forall i :: b <= i < j ==> Passes(br, p, k, i) {
          assert Passes(br, p, k, b);
        }
      }
    }
  }

  /** The first branch from b on that says anything about k holds a directory. */
  ghost predicate TopIsDir(br: seq<Branch>, p: DInfo, k: Key, b: nat)
    requires b <= |br| == |p.h|
  {
    Vis(br, p, k, b).Some? && Vis(br, p, k, b).value.typ == DIR
  }

  /** The visible entry of k is the merge's topmost one. */
  lemma {:induction false} MergeVis(br: seq<Branch>, p: DInfo, k: Key, b: nat)
    requires b <= |br| == |p.h|
    ensures var m, v := Merge(br, p, k, b, None), Vis(br, p, k, b);
            if m == [] then v == None
            else m[0] in m && v == Some(br[m[0]].ents[k]) && Clear(br, p, k, b, m[0])
    decreases |br| - b
  {
    if b < |br| && CellAt(br, p, k, b) == Skip {
      MergeVis(br, p, k, b + 1);
    }
  }

  /** Nothing is found above the directory's own first branch. */
  lemma {:induction false} AboveBstart(br: seq<Branch>, p: DInfo, k: Key)
    requires DirOk(|br|, p)
    ensures Vis(br, p, k, 0) == Vis(br, p, k, p.bstart)
    ensures Clear(br, p, k, 0, p.bstart)
  {
    VisSkip(br, p, k, 0, p.bstart);
  }

  /** An opaque directory that ends the scan is its last contributor. */
  lemma {:induction false} OpqFacts(br: seq<Branch>, p: DInfo, k: Key, b: nat, typ: Option<FType>)
    requires b <= |br| == |p.h|
    ensures var m, o := Merge(br, p, k, b, typ), OpqStop(br, p, k, b, typ);
            o != -1 ==> m != [] && o == m[|m| - 1] && o in m && Opaque(br[o], br[o].ents[k])
    decreases |br| - b
  {
    if b < |br| {
      OpqFacts(br, p, k, b + 1, typ);
      OpqFacts(br, p, k, b + 1, Some(DIR));
    }
  }

  /** A whiteout that ends the scan stands below every contributor. */
  lemma {:induction false} WhFacts(br: seq<Branch>, p: DInfo, k: Key, b: nat, typ: Option<FType>)
    requires b <= |br| == |p.h|
    ensures var m, w := Merge(br, p, k, b, typ), WhStop(br, p, k, b, typ);
            w != -1 ==> b <= w < |br| && CellAt(br, p, k, w) == Stop && OpqStop(br, p, k, b, typ) == -1
                        && (m != [] ==> m[|m| - 1] < w)
    decreases |br| - b
  {
    if b < |br| {
      var cell := CellAt(br, p, k, b);
      if cell == Skip || (cell.Hit? && typ.Some? && typ.value != cell.ent.typ) {
        WhFacts(br, p, k, b + 1, typ);
      } else if cell.Hit? && cell.ent.typ == DIR && !Opaque(br[b], cell.ent) {
        WhFacts(br, p, k, b + 1, Some(DIR));
      }
    }
  }

  /** A name that is not visible leaves one negative slot, on the directory's first
      branch, and remembers the whiteout that hides it. */
  lemma {:induction false} FreshNegative(br: seq<Branch>, p: DInfo, k: Key)
    requires DirOk(|br|, p) && NeverBoth(br[p.bstart]) && Plain(k)
    requires Vis(br, p, k, 0) == None
    ensures NegInfo(br, p, k, FreshInfo(br, p, k))
  {
    AboveBstart(br, p, k);
    MergeVis(br, p, k, p.bstart);
    var b := p.bstart;
    OpqFacts(br, p, k, b, None);
    assert NegSlot(br, p, k, b) == b;
    ScanCount(br, p, k, b, true, None, Blank(|br|));
    ScanEdges(br, p, k, b, true, None, Blank(|br|));
    forall j | 0 <= j < |br| ensures FreshInfo(br, p, k).h[j] == if j == b then Neg else Null {
      ScanSlot(br, p, k, b, true, None, Blank(|br|), j);
    }
  }

  /** A visible name has a positive slot exactly on the branches that make it up; its
      range of branches runs from the first to the last of them. */
  lemma {:induction false} FreshPositive(br: seq<Branch>, p: DInfo, k: Key)
    requires DirOk(|br|, p)
    requires Vis(br, p, k, 0) != None
    ensures var di, m := FreshInfo(br, p, k), Merged(br, p, k);
            && m != [] && di.bstart == m[0] && di.bend == m[|m| - 1]
            && di.bwh == WhStop(br, p, k, p.bstart, None)
            && di.bdiropq == OpqStop(br, p, k, p.bstart, None)
            && |di.h| == |br|
            && forall j :: 0 <= j < |br| ==> di.h[j] == if j in m then Pos(br[j].ents[k]) else Null
  {
    var b, m := p.bstart, Merged(br, p, k);
    var r := Scan(br, p, k, b, true, None, Blank(|br|)).1;
    AboveBstart(br, p, k);
    MergeVis(br, p, k, b);
    MergeSorted(br, p, k, b, None);
    ScanCount(br, p, k, b, true, None, Blank(|br|));
    ScanEdges(br, p, k, b, true, None, Blank(|br|));
    forall j | 0 <= j < |br| ensures r.h[j] == SlotAfter(br, p, k, b, true, None, Null, j) {
      ScanSlot(br, p, k, b, true, None, Blank(|br|), j);
    }
    TrimFresh(r, m, NegSlot(br, p, k, b));
  }

  /** Trimming removes the negative slot before the first positive one. */
  lemma {:induction false} TrimFresh(r: DInfo, m: seq<nat>, neg: int)
    requires m != [] && forall i, j :: 0 <= i < j < |m| ==> m[i] < m[j]
    requires forall j :: j in m ==> j < |r.h|
    requires neg < |r.h| && (neg >= 0 ==> neg !in m)
    requires r.bstart == (if neg >= 0 then neg else m[0]) && r.bend == m[|m| - 1]
    requires forall j :: 0 <= j < |r.h| ==> (r.h[j].Pos? <==> j in m) && (j !in m ==> r.h[j] == if j == neg then Neg else Null)
    requires neg >= 0 ==> neg < m[0]
    ensures Trimmed(r).bstart == m[0] && Trimmed(r).bend == r.bend && Trimmed(r).bwh == r.bwh && Trimmed(r).bdiropq == r.bdiropq
    ensures |Trimmed(r).h| == |r.h|
    ensures forall j :: 0 <= j < |r.h| ==> Trimmed(r).h[j] == if j in m then r.h[j] else Null
  {
    assert m[0] in m && m[|m| - 1] in m && m[0] <= m[|m| - 1];
    assert forall j :: j in m ==> m[0] <= j;
    assert NextPos(r.h, r.bstart, r.bend) == m[0];
  }

  /** A directory found by a fresh lookup is a good parent in its turn, and the branches
      it merges are exactly those that dbtaildir lets through. */
  lemma {:induction false} FreshDirOk(br: seq<Branch>, p: DInfo, k: Key)
    requires DirOk(|br|, p)
    requires TopIsDir(br, p, k, 0)
    ensures var di := FreshInfo(br, p, k);
            && DirOk(|br|, di)
            && forall j :: 0 <= j < |br| ==> (di.On(j) <==> j in Merged(br, p, k))
  {
    var di, m, b := FreshInfo(br, p, k), Merged(br, p, k), p.bstart;
    FreshPositive(br, p, k);
    OpqFacts(br, p, k, b, None);
    WhFacts(br, p, k, b, None);
    MergeSorted(br, p, k, b, None);
    AboveBstart(br, p, k);
    MergeVis(br, p, k, b);
    assert m[|m| - 1] in m && m[0] in m;
    assert di.DbTailDir() == di.bend;
    forall j | 0 <= j < |br| ensures di.On(j) <==> j in m {
      if j in m {
        MergeIff(br, p, k, b, j);
        assert br[j].ents[k].typ == DIR;
      }
    }
  }

  /** k is first held by branch b0, and nothing above says anything about it. */
  ghost predicate Topmost(br: seq<Branch>, p: DInfo, k: Key, b0: nat)
    requires |br| == |p.h|
  {
    b0 < |br| && Clear(br, p, k, 0, b0) && CellAt(br, p, k, b0).Hit?
  }

  /** The dentry state of a visible non-directory: it sits on one branch. */
  ghost predicate FileInfo(br: seq<Branch>, p: DInfo, k: Key, di: DInfo)
    requires |br| == |p.h|
  {
    && |di.h| == |br| && 0 <= di.bstart == di.bend < |br|
    && di.bwh == -1 && di.bdiropq == -1
    && Topmost(br, p, k, di.bstart) && br[di.bstart].ents[k].typ != DIR
    && forall j :: 0 <= j < |br| ==> di.h[j] == if j == di.bstart then Pos(br[j].ents[k]) else Null
  }

  /** The dentry state of a visible directory: a good parent that starts where the name is topmost,
      with slots only for lower directories of the name. A lookup leaves it so, and copying the
      directory up keeps it so. */
  ghost predicate DirInfo(br: seq<Branch>, p: DInfo, k: Key, di: DInfo)
    requires |br| == |p.h|
  {
    && DirOk(|br|, di) && 0 <= di.bstart <= di.bend < |br|
    && Topmost(br, p, k, di.bstart) && br[di.bstart].ents[k].typ == DIR
    && forall j :: 0 <= j < |br| && di.h[j] != Null ==> di.h[j].Pos? && p.On(j) && CellAt(br, p, k, j).Hit?
  }

  /** The dentry state of a name that is not visible: one negative slot. */
  ghost predicate NegInfo(br: seq<Branch>, p: DInfo, k: Key, di: DInfo)
    requires DirOk(|br|, p)
  {
    && |di.h| == |br| && di.bstart == di.bend == p.bstart
    && di.bwh == WhStop(br, p, k, p.bstart, None) && di.bdiropq == -1
    && Vis(br, p, k, 0) == None
    && forall j :: 0 <= j < |br| ==> di.h[j] == if j == p.bstart then Neg else Null
  }

  lemma {:induction false} FreshNondir(br: seq<Branch>, p: DInfo, k: Key)
    requires DirOk(|br|, p)
    requires Vis(br, p, k, 0).Some? && Vis(br, p, k, 0).value.typ != DIR
    ensures FileInfo(br, p, k, FreshInfo(br, p, k))
    ensures Vis(br, p, k, 0) == Some(br[FreshInfo(br, p, k).bstart].ents[k])
  {
    FreshPositive(br, p, k);
    AboveBstart(br, p, k);
    MergeVis(br, p, k, p.bstart);
    NondirMerge(br, p, k, p.bstart);
  }

  lemma {:induction false} FreshIsDir(br: seq<Branch>, p: DInfo, k: Key)
    requires DirOk(|br|, p) && TopIsDir(br, p, k, 0)
    ensures DirInfo(br, p, k, FreshInfo(br, p, k))
  {
    FreshPositive(br, p, k);
    AboveBstart(br, p, k);
    MergeVis(br, p, k, p.bstart);
    MergeSorted(br, p, k, p.bstart, None);
    FreshDirOk(br, p, k);
    var m := Merged(br, p, k);
    assert m[|m| - 1] in m;
  }

  lemma {:induction false} NondirMerge(br: seq<Branch>, p: DInfo, k: Key, b: nat)
    requires b <= |br| == |p.h|
    requires Vis(br, p, k, b).Some? && Vis(br, p, k, b).value.typ != DIR
    ensures |Merge(br, p, k, b, None)| == 1
    ensures WhStop(br, p, k, b, None) == -1 && OpqStop(br, p, k, b, None) == -1
    decreases |br| - b
  {
    if CellAt(br, p, k, b) == Skip {
      NondirMerge(br, p, k, b + 1);
    }
  }

  /** The lookup below a non-directory's branch finds something iff the name would still
      be visible without it; if not, one negative slot at most has been added. */
  lemma {:induction false} BelowNondir(br: seq<Branch>, p: DInfo, k: Key, di: DInfo)
    requires |br| == |p.h| && FileInfo(br, p, k, di)
    ensures var r, neg := Looked(br, p, k, di.bstart + 1, None, di), NegSlot(br, p, k, di.bstart + 1);
            && |r.1.h| == |br| && r.1.bstart == di.bstart
            && (r.0 > 0 <==> Vis(br, p, k, di.bstart + 1).Some?)
            && (r.0 == 0 ==> r.1.bend == if neg >= 0 then neg else di.bend)
            && (r.0 == 0 ==> r.1.bdiropq == -1)
            && (r.0 == 0 ==> forall j :: 0 <= j < |br| ==> r.1.h[j] == if j == neg then Neg else di.h[j])
  {
    var b := di.bstart + 1;
    var r, neg := Looked(br, p, k, b, None, di), NegSlot(br, p, k, b);
    ScanCount(br, p, k, b, true, None, di);
    ScanEdges(br, p, k, b, true, None, di);
    MergeVis(br, p, k, b);
    OpqFacts(br, p, k, b, None);
    if r.0 == 0 {
      forall j | 0 <= j < |br| ensures r.1.h[j] == if j == neg then Neg else di.h[j] {
        ScanSlot(br, p, k, b, true, None, di, j);
      }
    } else {
      ScanSlot(br, p, k, b, true, None, di, di.bstart);
    }
  }

  /** The slots filled from branch b on are lower directories of the name. */
  ghost predicate Lowers(br: seq<Branch>, p: DInfo, k: Key, b: nat, di: DInfo)
    requires |br| == |p.h| == |di.h|
  {
    forall j :: b <= j < |br| && di.h[j] != Null ==>
                  0 <= di.bstart <= j && di.h[j].Pos? && CellAt(br, p, k, j).Hit? && CellAt(br, p, k, j).ent.typ == DIR
  }

  /** Every branch from b down to j, for which the dentry has nothing yet, lets the merge go on. */
  ghost predicate ComesTo(br: seq<Branch>, p: DInfo, k: Key, b: nat, di: DInfo, j: nat)
    requires j <= |br| == |p.h| == |di.h|
  {
    forall i :: b <= i < j && di.h[i] == Null ==> Passes(br, p, k, i)
  }

  /** Branch j has a directory that a lookup from branch b on comes to. */
  ghost predicate Joins(br: seq<Branch>, p: DInfo, k: Key, b: nat, di: DInfo, j: nat)
    requires |br| == |p.h| == |di.h|
  {
    b <= j < |br| && CellAt(br, p, k, j).Hit? && CellAt(br, p, k, j).ent.typ == DIR && ComesTo(br, p, k, b, di, j)
  }

  ghost function Joining(br: seq<Branch>, p: DInfo, k: Key, b: nat, di: DInfo): set<nat>
    requires |br| == |p.h| == |di.h|
  {
    set j | b <= j < |br| && Joins(br, p, k, b, di, j)
  }

  /** What a second lookup of a directory, from branch b on, makes of a dentry di that has some of its
      lower directories already: it gains every other one that it comes to, and counts them all; it
      notes the whiteout or the opaque directory that stops it. */
  ghost predicate Again(br: seq<Branch>, p: DInfo, k: Key, b: nat, di: DInfo, n: nat, out: DInfo)
    requires |br| == |p.h| == |di.h| == |out.h|
  {
    && n == |Joining(br, p, k, b, di)|
    && (forall j :: 0 <= j < |br| ==>
                      out.h[j] == if di.h[j] == Null && Joins(br, p, k, b, di, j) then Pos(br[j].ents[k]) else di.h[j])
    && (forall w: nat :: b <= w < |br| ==>
                      (out.bwh == w <==> di.h[w] == Null && CellAt(br, p, k, w) == Stop && ComesTo(br, p, k, b, di, w)))
    && (forall w: nat :: b <= w < |br| ==>
                      (out.bdiropq == w <==> di.h[w] == Null && Joins(br, p, k, b, di, w) && !Passes(br, p, k, w)))
    && (out.bwh == -1 || b <= out.bwh < |br|) && (out.bdiropq == -1 || b <= out.bdiropq < |br|)
  }

  lemma {:induction false} ScanAgain(br: seq<Branch>, p: DInfo, k: Key, b: nat, di: DInfo)
    requires b <= |br| == |p.h| == |di.h| && di.bwh == -1 && di.bdiropq == -1 && Lowers(br, p, k, b, di)
    ensures var r := Scan(br, p, k, b, false, Some(DIR), di); Again(br, p, k, b, di, r.0, r.1)
    decreases |br| - b
  {
    hide Again, Joins, ComesTo, Joining;
    var r := Scan(br, p, k, b, false, Some(DIR), di);
    if b == |br| {
      AgainNone(br, p, k, b, di);
      return;
    }
    AgainCases(br, p, k, b, di);
    var cell, di' := CellAt(br, p, k, b), Probed(br[b], k, b, false, Some(DIR), di).1;
    if di.h[b] == Null && (cell == Stop || (cell.Hit? && Opaque(br[b], cell.ent))) {
      AgainStop(br, p, k, b, di, di');
    } else {
      var next := if di.h[b] == Null && cell.Hit? then di' else di;
      ScanAgain(br, p, k, b + 1, next);
      var r' := Scan(br, p, k, b + 1, false, Some(DIR), next);
      AgainMore(br, p, k, b, di, next, r'.0, r'.1);
    }
  }

  lemma {:induction false} AgainNone(br: seq<Branch>, p: DInfo, k: Key, b: nat, di: DInfo)
    requires b == |br| == |p.h| == |di.h| && di.bwh == -1 && di.bdiropq == -1
    ensures Again(br, p, k, b, di, 0, di)
  {
  }

  /** One turn of the scan. */
  lemma {:induction false} AgainCases(br: seq<Branch>, p: DInfo, k: Key, b: nat, di: DInfo)
    requires b < |br| == |p.h| == |di.h| && di.bwh == -1 && di.bdiropq == -1 && Lowers(br, p, k, b, di)
    ensures var cell, di' := CellAt(br, p, k, b), Probed(br[b], k, b, false, Some(DIR), di).1;
            var r := Scan(br, p, k, b, false, Some(DIR), di);
            if di.h[b] == Null && (cell == Stop || (cell.Hit? && Opaque(br[b], cell.ent))) then
              r == (if cell == Stop then 0 else 1, di') && (di'.bwh == if cell == Stop then b else -1)
              && di'.bdiropq == (if cell == Stop then -1 else b) && |di'.h| == |di.h|
              && di'.h == (if cell == Stop then di.h else di.h[b := Pos(br[b].ents[k])])
            else
              var next := if di.h[b] == Null && cell.Hit? then di' else di;
              var more := di.h[b] != Null || (cell.Hit? && cell.ent.typ == DIR);
              && next.bwh == -1 && next.bdiropq == -1 && |next.h| == |di.h| && Lowers(br, p, k, b + 1, next)
              && next.h == (if di.h[b] == Null && more then di.h[b := Pos(br[b].ents[k])] else di.h)
              && r == (Scan(br, p, k, b + 1, false, Some(DIR), next).0 + (if more then 1 else 0),
                       Scan(br, p, k, b + 1, false, Some(DIR), next).1)
  {
  }

  lemma {:induction false} AgainStop(br: seq<Branch>, p: DInfo, k: Key, b: nat, di: DInfo, di': DInfo)
    requires b < |br| == |p.h| == |di.h| == |di'.h| && di.h[b] == Null
    requires var cell := CellAt(br, p, k, b);
             if cell == Stop then di'.h == di.h && di'.bwh == b && di'.bdiropq == -1
             else cell.Hit? && Opaque(br[b], cell.ent) && di'.h == di.h[b := Pos(br[b].ents[k])] && di'.bwh == -1 && di'.bdiropq == b
    ensures Again(br, p, k, b, di, if CellAt(br, p, k, b) == Stop then 0 else 1, di')
  {
    JoinsStep(br, p, k, b, di, di);
  }

  lemma {:induction false} JoinsHere(br: seq<Branch>, p: DInfo, k: Key, b: nat, di: DInfo)
    requires b < |br| == |p.h| == |di.h|
    ensures Joins(br, p, k, b, di, b) <==> CellAt(br, p, k, b).Hit? && CellAt(br, p, k, b).ent.typ == DIR
  {
  }

  lemma {:induction false} AgainMore(br: seq<Branch>, p: DInfo, k: Key, b: nat, di: DInfo, next: DInfo, n: nat, out: DInfo)
    requires b < |br| == |p.h| == |di.h| == |next.h| == |out.h| && Again(br, p, k, b + 1, next, n, out)
    requires di.h[b] != Null ==> CellAt(br, p, k, b).Hit? && CellAt(br, p, k, b).ent.typ == DIR
    requires di.h[b] == Null ==> Passes(br, p, k, b)
    requires var cell := CellAt(br, p, k, b);
             next.h == if di.h[b] == Null && cell.Hit? && cell.ent.typ == DIR then di.h[b := Pos(br[b].ents[k])] else di.h
    ensures var cell := CellAt(br, p, k, b);
            Again(br, p, k, b, di, n + (if di.h[b] != Null || (cell.Hit? && cell.ent.typ == DIR) then 1 else 0), out)
  {
    hide Joins, ComesTo, Opaque, CellAt, Joining;
    assert Joins(br, p, k, b, di, b) <==> CellAt(br, p, k, b).Hit? && CellAt(br, p, k, b).ent.typ == DIR by {
      JoinsHere(br, p, k, b, di);
    }
    JoinsStep(br, p, k, b, di, next);
  }

  /** The branches that join, one branch at a time. */
  lemma {:induction false} JoinsStep(br: seq<Branch>, p: DInfo, k: Key, b: nat, di: DInfo, di': DInfo)
    requires b < |br| == |p.h| == |di.h| == |di'.h| && forall j :: b < j < |br| ==> di'.h[j] == di.h[j]
    ensures var on, c := di.h[b] != Null || Passes(br, p, k, b), b + 1;
            && (forall j: nat :: b < j < |br| ==> (ComesTo(br, p, k, b, di, j) <==> on && ComesTo(br, p, k, b + 1, di', j)))
            && (forall j: nat :: b < j < |br| ==> (Joins(br, p, k, b, di, j) <==> on && Joins(br, p, k, b + 1, di', j)))
            && ComesTo(br, p, k, b, di, b) && !(b in Joining(br, p, k, b + 1, di'))
            && (forall j: nat :: j < b ==> !Joins(br, p, k, b, di, j))
            && (forall j: nat :: j <= b ==> !Joins(br, p, k, c, di', j))
            && Joining(br, p, k, b, di)
            == (if Joins(br, p, k, b, di, b) then {b} else {}) + (if on then Joining(br, p, k, b + 1, di') else {})
  {
    hide Passes, CellAt;
    var on := di.h[b] != Null || Passes(br, p, k, b);
    forall j: nat | b < j < |br| ensures ComesTo(br, p, k, b, di, j) <==> on && ComesTo(br, p, k, b + 1, di', j) {
      assert ComesTo(br, p, k, b, di, j) ==> di.h[b] == Null ==> Passes(br, p, k, b);
    }
  }

  /** The bounds of a dentry: all that is set lies within, and something at the last branch. */
  ghost predicate Spans(di: DInfo) {
    && (forall j :: 0 <= j < |di.h| && di.h[j] != Null ==> 0 <= di.bstart <= j <= di.bend)
    && 0 <= di.bend < |di.h| && di.h[di.bend] != Null
  }

  lemma {:induction false} ScanSpans(br: seq<Branch>, p: DInfo, k: Key, b: nat, di: DInfo)
    requires b <= |br| == |p.h| == |di.h| && Spans(di)
    ensures Spans(Scan(br, p, k, b, false, Some(DIR), di).1)
    decreases |br| - b
  {
    hide DInfo.On, DInfo.DbTailDir, DInfo.H, Opaque, Whited;
    if b < |br| {
      var (slot, di') := Probed(br[b], k, b, false, Some(DIR), di);
      if di.H(b) != Null || !p.On(b) {
        ScanSpans(br, p, k, b + 1, di);
      }
      if p.On(b) && di'.bwh == -1 {
        ScanSpans(br, p, k, b + 1, di');
      }
    }
  }

  /** The whole of it, as a dentry is refreshed after branches were added: from branch b on it has
      exactly the lower directories it had and those the lookup comes to, and its bounds are right. */
  lemma {:induction false} LookedAgain(br: seq<Branch>, p: DInfo, k: Key, b: nat, di: DInfo)
    requires b <= |br| == |p.h| == |di.h| && di.bwh == -1 && di.bdiropq == -1 && Lowers(br, p, k, b, di)
    requires Spans(di) && forall j :: 0 <= j < |br| && di.h[j] != Null ==> di.h[j].Pos?
    ensures var r := Looked(br, p, k, b, Some(DIR), di);
            Again(br, p, k, b, di, r.0, r.1) && Spans(r.1) && r.1.bstart >= 0 && (r.0 > 0 ==> r.1.h[r.1.bstart].Pos?)
  {
    hide Lowers, Joins, ComesTo, Joining, CellAt, Passes, Scan, Trimmed;
    ScanAgain(br, p, k, b, di);
    ScanSpans(br, p, k, b, di);
    var r := Scan(br, p, k, b, false, Some(DIR), di);
    AllPositive(br, p, k, b, di, r.0, r.1);
    TrimPositive(r.1);
  }

  lemma {:induction false} AllPositive(br: seq<Branch>, p: DInfo, k: Key, b: nat, di: DInfo, n: nat, out: DInfo)
    requires b <= |br| == |p.h| == |di.h| == |out.h| && Again(br, p, k, b, di, n, out)
    requires forall j :: 0 <= j < |br| && di.h[j] != Null ==> di.h[j].Pos?
    ensures forall j :: 0 <= j < |br| && out.h[j] != Null ==> out.h[j].Pos?
  {
  }

  /** Trimming a dentry without negative slots moves its start and changes no slot. */
  lemma {:induction false} TrimPositive(di: DInfo)
    requires Spans(di) && forall j :: 0 <= j < |di.h| && di.h[j] != Null ==> di.h[j].Pos?
    ensures var t := Trimmed(di); Spans(t) && t == di.(bstart := t.bstart) && t.h[t.bstart].Pos?
  {
    var f := NextPos(di.h, di.bstart, di.bend);
    assert NullOn(di.h, di.bstart, f) == di.h;
  }

  /** A lookup that does not want a directory goes no further than a branch for which the dentry has
      something already, and changes nothing. */
  lemma {:induction false} ScanFilled(br: seq<Branch>, p: DInfo, k: Key, b: nat, allowNeg: bool, typ: Option<FType>, di: DInfo, j: nat)
    requires b <= j < |br| == |p.h| == |di.h| && typ != Some(DIR)
    requires j <= p.DbTailDir() && di.H(j) != Null && forall i :: b <= i < j ==> !p.On(i) && di.H(i) == Null
    ensures Scan(br, p, k, b, allowNeg, typ, di) == (if di.H(j).Pos? then 1 else 0, di)
    decreases j - b
  {
    if b < j {
      ScanFilled(br, p, k, b + 1, allowNeg, typ, di, j);
    }
  }
}
