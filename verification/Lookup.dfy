/** dentry.c: looking a name up through the stack, branch by branch. */
module Lookup {
  import opened Names
  import opened Stack

  /** The branches a lookup of k collects from branch b on, when entries of type typ
      (None: of any one type) are wanted. */
  function Merge(br: seq<Branch>, p: DInfo, k: Key, b: nat, typ: Option<FType>): (m: seq<nat>)
    requires b <= |br| == |p.h|
    ensures forall j :: j in m ==> b <= j < |br| && CellAt(br, p, k, j).Hit?
    decreases |br| - b
  {
    if b == |br| then []
    else match CellAt(br, p, k, b)
      case Skip => Merge(br, p, k, b + 1, typ)
      case Stop => []
      case Hit(e) =>
        if typ.Some? && typ.value != e.typ then Merge(br, p, k, b + 1, typ)
        else if e.typ != DIR || Opaque(br[b], e) then [b]
        else [b] + Merge(br, p, k, b + 1, Some(DIR))
  }

  /** An opaque mark counts only on a branch that can hold whiteouts. */
  predicate Opaque(br: Branch, e: Ent) {
    br.Whable() && e.typ == DIR && e.opq
  }

  /** The first whiteout met on the way, or -1. */
  function WhStop(br: seq<Branch>, p: DInfo, k: Key, b: nat, typ: Option<FType>): (w: int)
    requires b <= |br| == |p.h|
    decreases |br| - b
  {
    if b == |br| then -1
    else match CellAt(br, p, k, b)
      case Skip => WhStop(br, p, k, b + 1, typ)
      case Stop => b
      case Hit(e) =>
        if typ.Some? && typ.value != e.typ then WhStop(br, p, k, b + 1, typ)
        else if e.typ != DIR || Opaque(br[b], e) then -1
        else WhStop(br, p, k, b + 1, Some(DIR))
  }

  /** Where a lookup that finds nothing leaves its one negative slot: the first
      branch with a parent, unless that branch holds the name under its whiteout. */
  function NegSlot(br: seq<Branch>, p: DInfo, k: Key, b: nat): (n: int)
    requires b <= |br| == |p.h|
    ensures n == -1 || b <= n < |br|
    decreases |br| - b
  {
    if b == |br| then -1
    else if !p.On(b) then NegSlot(br, p, k, b + 1)
    else if k in br[b].ents then -1
    else b
  }

  /** The opaque directory that ended the scan, or -1. */
  function OpqStop(br: seq<Branch>, p: DInfo, k: Key, b: nat, typ: Option<FType>): (w: int)
    requires b <= |br| == |p.h|
    decreases |br| - b
  {
    if b == |br| then -1
    else match CellAt(br, p, k, b)
      case Skip => OpqStop(br, p, k, b + 1, typ)
      case Stop => -1
      case Hit(e) =>
        if typ.Some? && typ.value != e.typ then OpqStop(br, p, k, b + 1, typ)
        else if e.typ != DIR then -1
        else if Opaque(br[b], e) then b
        else OpqStop(br, p, k, b + 1, Some(DIR))
  }

  /** An aufs dentry. */
  class Dentry {
    const key: Key
    var di: DInfo

    constructor (key: Key, n: nat)
      ensures this.key == key && di == Blank(n)
    {
      this.key := key;
      di := Blank(n);
    }

    /** Drops leading slots that are not positive and moves bstart to the first positive one. */
    method UpdateDbstart()
      requires di.bend < |di.h|
      modifies this
      ensures di == Trimmed(old(di))
    {
      if di.bstart < 0 {
        return;
      }
      var bindex := di.bstart;
      while bindex <= di.bend
        invariant di.bstart == old(di.bstart) <= bindex
        invariant di == old(di).(h := di.h)
        invariant di.h == NullOn(old(di.h), di.bstart, bindex)
        invariant bindex <= NextPos(old(di.h), di.bstart, di.bend)
      {
        if di.h[bindex].Pos? {
          di := di.(bstart := bindex);
          return;
        }
        di := di.(h := di.h[bindex := Null]);
        bindex := bindex + 1;
      }
    }
  }

  /** The first positive slot in b..bend, or the index after it. */
  function NextPos(h: seq<Slot>, b: nat, bend: int): (f: nat)
    requires bend < |h|
    ensures b <= f && (b <= bend ==> f <= bend + 1)
    ensures forall j :: b <= j < f && j <= bend ==> !h[j].Pos?
    ensures f <= bend ==> h[f].Pos?
    decreases bend - b
  {
    if bend < b || h[b].Pos? then b else NextPos(h, b + 1, bend)
  }

  function NullOn(h: seq<Slot>, lo: nat, hi: nat): (r: seq<Slot>)
    ensures |r| == |h|
    ensures forall j :: 0 <= j < |h| ==> r[j] == if lo <= j < hi then Null else h[j]
  {
    seq(|h|, j requires 0 <= j < |h| => if lo <= j < hi then Null else h[j])
  }

  /** au_update_dbstart. */
  function Trimmed(di: DInfo): DInfo {
    if di.bstart < 0 || |di.h| <= di.bend then di
    else
      var f := NextPos(di.h, di.bstart, di.bend);
      di.(h := NullOn(di.h, di.bstart, f), bstart := if f <= di.bend then f else di.bstart)
  }

  /** One lower lookup. */
  method LkupOne(br: Branch, k: Key) returns (err: int, slot: Slot)
    ensures err <= 0
    ensures err == 0 ==> slot == if k in br.ents then Pos(br.ents[k]) else Neg
    ensures !FAULTS ==> err == 0
  {
    err := LowerFault();
    slot := if k in br.ents then Pos(br.ents[k]) else Neg;
  }

  /** What stands in the place of k's whiteout is one. */
  predicate WhOk(br: Branch, k: Key) {
    Wh(k) in br.ents ==> br.ents[Wh(k)].typ.REG?
  }

  /** At rest they all are. */
  lemma {:induction false} AllWhOk(br: seq<Branch>, dirs: Dirs, k: Key)
    requires AtRest(br, dirs) && Plain(k)
    ensures forall b :: 0 <= b < |br| ==> WhOk(br[b], k)
  {
    forall b | 0 <= b < |br| ensures WhOk(br[b], k) {
      assert MarksOk(br[b]);
    }
  }

  /** Is there a whiteout of k? It must be a regular file. */
  method IsWh(br: Branch, k: Key) returns (found: int)
    ensures found >= 0 ==> (found > 0 <==> Wh(k) in br.ents)
    ensures found >= 0 ==> WhOk(br, k)
    ensures !FAULTS && WhOk(br, k) ==> found >= 0
  {
    var err, slot := LkupOne(br, Wh(k));
    if err != 0 {
      return err;
    }
    if slot.Neg? {
      return 0;
    }
    found := if slot.ent.typ.REG? then 1 else -EIO;
  }

  /** What a lookup on branch b finds, and the dentry state it leaves. */
  function Probed(br: Branch, k: Key, b: nat, allowNeg: bool, typ: Option<FType>, di: DInfo): (r: (Slot, DInfo))
    requires b < |di.h|
    ensures |r.1.h| == |di.h| && (di.bend < |di.h| ==> r.1.bend < |di.h|)
  {
    var wh := Whited(br, k);
    var slot := if k !in br.ents then (if allowNeg then Neg else Null)
                else if wh || (typ.Some? && typ.value != br.ents[k].typ) then Null
                else Pos(br.ents[k]);
    (slot,
     DInfo(if !slot.Null? && (di.bstart == -1 || b < di.bstart) then b else di.bstart,
           if !slot.Null? && di.bend <= b then b else di.bend,
           if wh then b else di.bwh,
           if slot.Pos? && Opaque(br, slot.ent) then b else di.bdiropq,
           if slot.Null? then di.h else di.h[b := slot]))
  }

  /** Looks d up on branch b. Null in slot: whiteouted, not found or of another type. */
  method DoLookup(br: seq<Branch>, d: Dentry, b: nat, allowNeg: bool, typ: Option<FType>)
    returns (err: int, slot: Slot)
    requires b < |br| == |d.di.h|
    modifies d
    ensures err <= 0
    ensures err == 0 ==> (slot, d.di) == Probed(br[b], d.key, b, allowNeg, typ, old(d.di))
    // an error leaves nothing in the slot that was not there
    ensures err != 0 ==> d.di.h == old(d.di).h || d.di.h == old(d.di).h[b := Null]
    ensures !FAULTS && (br[b].Whable() ==> WhOk(br[b], d.key)) ==> err == 0
    ensures |d.di.h| == |old(d.di.h)|
  {
    var whFound := 0;
    slot := Null;
    err := 0;
    var whAble := br[b].Whable();
    if whAble {
      whFound := IsWh(br[b], d.key);
      if whFound < 0 {
        return whFound, Null;
      }
    }
    if whFound > 0 {
      d.di := d.di.(bwh := b);
      if !allowNeg {
        return 0, Null;
      }
    }
    err, slot := LkupOne(br[b], d.key);
    if err != 0 {
      return err, Null;
    }
    if slot.Neg? {
      if !allowNeg {
        return 0, Null;
      }
    } else if whFound > 0 || (typ.Some? && typ.value != slot.ent.typ) {
      return 0, Null;
    }
    if d.di.bend <= b {
      d.di := d.di.(bend := b);
    }
    if d.di.bstart == -1 || b < d.di.bstart {
      d.di := d.di.(bstart := b);
    }
    d.di := d.di.(h := d.di.h[b := slot]);
    if slot.Neg? || slot.ent.typ != DIR || !whAble {
      return 0, slot;
    }
    var e := LowerFault();
    if e < 0 {
      d.di := d.di.(h := d.di.h[b := Null]);
      return e, Null;
    }
    if slot.ent.opq {
      d.di := d.di.(bdiropq := b);
    }
  }

  /** No slot from branch b on is filled. */
  predicate Unset(di: DInfo, b: nat) {
    forall j :: b <= j < |di.h| ==> di.h[j] == Null
  }

  /** The scan of lkup_dentry as a function: how many positive branches, and the dentry state. */
  function Scan(br: seq<Branch>, p: DInfo, k: Key, b: nat, allowNeg: bool, typ: Option<FType>, di: DInfo): (r: (nat, DInfo))
    requires b <= |br| == |p.h| == |di.h|
    ensures |r.1.h| == |di.h| && (di.bend < |di.h| ==> r.1.bend < |di.h|)
    decreases |br| - b
  {
    if b == |br| then (0, di)
    else if b <= p.DbTailDir() && di.H(b) != Null then
      // filled by an earlier lookup
      var n := if di.H(b).Pos? then 1 else 0;
      if typ != Some(DIR) then (n, di)
      else
        var r := Scan(br, p, k, b + 1, allowNeg, typ, di);
        (n + r.0, r.1)
    else if !p.On(b) then Scan(br, p, k, b + 1, allowNeg, typ, di)
    else
      var (slot, di') := Probed(br[b], k, b, allowNeg, typ, di);
      if di'.bwh != -1 then (0, di')
      else if !slot.Pos? then Scan(br, p, k, b + 1, false, typ, di')
      else if typ.GetOr(slot.ent.typ) != DIR || di'.bdiropq != -1 then (1, di')
      else
        var r := Scan(br, p, k, b + 1, false, Some(DIR), di');
        (1 + r.0, r.1)
  }

  /** Beyond the parent's tail there is nothing to find. */
  lemma {:induction false} PastTail(br: seq<Branch>, p: DInfo, k: Key, b: nat, allowNeg: bool, typ: Option<FType>, di: DInfo)
    requires p.DbTailDir() < b <= |br| == |p.h| == |di.h|
    ensures Scan(br, p, k, b, allowNeg, typ, di) == (0, di)
    decreases |br| - b
  {
    if b < |br| {
      PastTail(br, p, k, b + 1, allowNeg, typ, di);
    }
  }

  /** What lkup_dentry leaves behind when no lower call fails. */
  function Looked(br: seq<Branch>, p: DInfo, k: Key, b: nat, typ: Option<FType>, di: DInfo): (r: (nat, DInfo))
    requires b <= |br| == |p.h| == |di.h|
  {
    var r := Scan(br, p, k, b, typ.None?, typ, di);
    if r.0 > 0 then (r.0, Trimmed(r.1)) else r
  }

  /** lkup_dentry: the number of positive branches found from bstart on, or an error. */
  method LkupDentry(br: seq<Branch>, p: DInfo, d: Dentry, bstart: nat, typ0: Option<FType>) returns (err: int)
    requires |br| == |p.h| == |d.di.h| && bstart <= |br| && p.DbTailDir() < |br|
    requires d.di.bend < |br|
    modifies d
    ensures Reserved(d.key.name) ==> err == -EPERM && d.di == old(d.di)
    ensures err >= 0 ==> (err, d.di) == Looked(br, p, d.key, bstart, typ0, old(d.di))
    ensures !FAULTS && Plain(d.key) && (forall b :: 0 <= b < |br| && br[b].Whable() ==> WhOk(br[b], d.key)) ==> err >= 0
    ensures |d.di.h| == |br|
  {
    hide Probed, WhOk, DInfo.On, DInfo.DbTail;
    if Reserved(d.key.name) {
      return -EPERM;
    }
    err := LowerFault();
    if err != 0 {
      return;
    }
    var typ := typ0;
    var allowNeg := typ.None?;
    var npositive := 0;
    var btail := p.DbTailDir();
    var bindex := bstart;
    ghost var goal := Scan(br, p, d.key, bstart, allowNeg, typ, d.di);
    ghost var rest := goal;
    while bindex <= btail
      invariant bstart <= bindex <= |br| == |d.di.h| && d.di.bend < |br|
      invariant rest == Scan(br, p, d.key, bindex, allowNeg, typ, d.di)
      invariant goal == (npositive + rest.0, rest.1)
    {
      if d.di.H(bindex) != Null {
        if d.di.H(bindex).Pos? {
          npositive := npositive + 1;
        }
        if typ != Some(DIR) {
          rest := (0, d.di);
          break;
        }
        bindex := bindex + 1;
        rest := Scan(br, p, d.key, bindex, allowNeg, typ, d.di);
        continue;
      }
      if !p.On(bindex) {
        bindex := bindex + 1;
        continue;
      }
      var e, slot := DoLookup(br, d, bindex, allowNeg, typ);
      if e != 0 {
        return e;
      }
      allowNeg := false;
      if d.di.bwh != -1 {
        rest := (0, d.di);
        break;
      }
      bindex := bindex + 1;
      if slot.Pos? {
        npositive := npositive + 1;
        if typ.None? {
          typ := Some(slot.ent.typ);
        }
        if typ != Some(DIR) || d.di.bdiropq != -1 {
          rest := (0, d.di);
          break;
        }
      }
      rest := Scan(br, p, d.key, bindex, allowNeg, typ, d.di);
    }
    if bindex > btail && rest != (0, d.di) {
      PastTail(br, p, d.key, bindex, allowNeg, typ, d.di);
    }
    if npositive > 0 {
      d.UpdateDbstart();
    }
    err := npositive;
  }

  /** Among other things, the scan returns the number of merged branches. */
  lemma {:induction false} ScanCount(br: seq<Branch>, p: DInfo, k: Key, b: nat, allowNeg: bool, typ: Option<FType>, di: DInfo)
    requires b <= |br| == |p.h| == |di.h| && di.bwh == -1 && di.bdiropq == -1 && Unset(di, b)
    ensures var r, m := Scan(br, p, k, b, allowNeg, typ, di), Merge(br, p, k, b, typ);
            r.0 == |m| && r.1.bwh == WhStop(br, p, k, b, typ) && r.1.bdiropq == OpqStop(br, p, k, b, typ)
    decreases |br| - b
  {
    if b < |br| {
      var (slot, di') := Probed(br[b], k, b, allowNeg, typ, di);
      if !p.On(b) {
        ScanCount(br, p, k, b + 1, allowNeg, typ, di);
      } else if di'.bwh == -1 && !slot.Pos? {
        ScanCount(br, p, k, b + 1, false, typ, di');
      } else if di'.bwh == -1 && typ.GetOr(slot.ent.typ) == DIR && di'.bdiropq == -1 {
        ScanCount(br, p, k, b + 1, false, Some(DIR), di');
      }
    }
  }

  /** The slot of branch j after the scan. */
  function SlotAfter(br: seq<Branch>, p: DInfo, k: Key, b: nat, allowNeg: bool, typ: Option<FType>, was: Slot, j: nat): Slot
    requires b <= |br| == |p.h| && j < |br|
  {
    if j < b then was
    else if j in Merge(br, p, k, b, typ) then Pos(br[j].ents[k])
    else if allowNeg && j == NegSlot(br, p, k, b) then Neg
    else was
  }

  /** Every slot of the scanned dentry: positive exactly on the merged branches. */
  lemma {:induction false} ScanSlot(br: seq<Branch>, p: DInfo, k: Key, b: nat, allowNeg: bool, typ: Option<FType>, di: DInfo, j: nat)
    requires b <= |br| == |p.h| == |di.h| && di.bwh == -1 && di.bdiropq == -1 && j < |br|
    requires Unset(di, b) && (allowNeg ==> typ.None?)
    ensures Scan(br, p, k, b, allowNeg, typ, di).1.h[j] == SlotAfter(br, p, k, b, allowNeg, typ, di.h[j], j)
    decreases |br| - b
  {
    hide DInfo.On, DInfo.DbTailDir, Opaque;
    if b < |br| {
      var (slot, di') := Probed(br[b], k, b, allowNeg, typ, di);
      if !p.On(b) {
        ScanSlot(br, p, k, b + 1, allowNeg, typ, di, j);
      } else if di'.bwh == -1 && !slot.Pos? {
        ScanSlot(br, p, k, b + 1, false, typ, di', j);
      } else if di'.bwh == -1 && typ.GetOr(slot.ent.typ) == DIR && di'.bdiropq == -1 {
        ScanSlot(br, p, k, b + 1, false, Some(DIR), di', j);
      }
    }
  }
}
