/** vdir.c and dir.c: merging the lower listings of a directory, and asking whether the
    merge is empty. A lower directory is read as a stream of names, in any order. */
module Readdir {
  import opened Names
  import opened Stack

  predicate Dot(name: string) {
    name == "." || name == ".."
  }

  /** names is a complete reading of directory d on one branch. */
  ghost predicate Reads(br: Branch, d: Dir, names: seq<string>) {
    && (forall i, j :: 0 <= i < j < |names| ==> names[i] != names[j])
    && (forall n :: n in names <==> Dot(n) || Key(d, n) in br.ents)
    && "" !in names && !(Key(d, ".") in br.ents) && !(Key(d, "..") in br.ents)
    && (forall n :: n in names ==> |n| <= NAME_MAX)
  }

  /** One reading for each branch that holds the directory. */
  ghost predicate ReadsAll(br: seq<Branch>, p: DInfo, d: Dir, s: seq<seq<string>>) {
    && |s| == |br| == |p.h|
    && forall j :: 0 <= j < |br| && p.On(j) ==> Reads(br[j], d, s[j])
  }

  /** A name or its whiteout is met on branch i. */
  ghost predicate Met(p: DInfo, s: seq<seq<string>>, n: string, i: nat)
    requires i < |s| == |p.h|
  {
    p.On(i) && (n in s[i] || WhName(n) in s[i])
  }

  /** The merged listing shows n as the entry of branch j. */
  ghost predicate Shown(p: DInfo, s: seq<seq<string>>, n: string, j: nat)
    requires |s| == |p.h|
  {
    j < |s| && p.On(j) && n in s[j] && !Mark(n) && forall i :: 0 <= i < j ==> !Met(p, s, n, i)
  }

  datatype Listed = Listed(name: string, b: nat)

  /** The state of filling a vdir: what has been listed, and per branch the names and the
      whiteouts seen (the hash tables delist and whlist). */
  class Filler {
    var list: seq<Listed>
    var delist: seq<set<string>>
    var whlist: seq<set<string>>

    constructor (n: nat)
      ensures list == [] && |delist| == |whlist| == n
      ensures forall i :: 0 <= i < n ==> delist[i] == {} && whlist[i] == {}
    {
      list := [];
      delist := seq(n, _ => {});
      whlist := seq(n, _ => {});
    }

    /** fillvdir: one lower entry. */
    method FillVdir(bend: nat, name: string) returns (err: int)
      requires bend < |delist| == |whlist|
      modifies this
      ensures err <= 0
      ensures err == 0 ==> (list, delist, whlist) == Filled(old(list), old(delist), old(whlist), bend, name)
      ensures |delist| == |whlist| == |old(delist)|
      ensures !FAULTS ==> err == 0
    {
      if !Mark(name) {
        for bindex := 0 to bend
          invariant !Known(delist, whlist, bindex, name)
        {
          if name in delist[bindex] || name in whlist[bindex] {
            return 0;
          }
        }
        err := LowerFault();
        if err == 0 {
          list := list + [Listed(name, bend)];
          delist := delist[bend := delist[bend] + {name}];
        }
      } else {
        for bindex := 0 to bend
          invariant bindex == 0 || Stripped(name) !in whlist[bend]
        {
          if Stripped(name) in whlist[bend] {
            assert whlist[bend] + {Stripped(name)} == whlist[bend];
            assert whlist == whlist[bend := whlist[bend]];
            return 0;
          }
        }
        err := LowerFault();
        if err == 0 {
          whlist := whlist[bend := whlist[bend] + {Stripped(name)}];
        }
      }
    }
  }

  /** Already listed or whiteouted on one of the branches above bend. */
  predicate Known(delist: seq<set<string>>, whlist: seq<set<string>>, bend: nat, name: string)
    requires bend <= |delist| == |whlist|
  {
    exists i :: 0 <= i < bend && (name in delist[i] || name in whlist[i])
  }

  function Filled(list: seq<Listed>, delist: seq<set<string>>, whlist: seq<set<string>>, bend: nat, name: string)
    : (seq<Listed>, seq<set<string>>, seq<set<string>>)
    requires bend < |delist| == |whlist|
  {
    if Mark(name) then (list, delist, whlist[bend := whlist[bend] + {Stripped(name)}])
    else if Known(delist, whlist, bend, name) then (list, delist, whlist)
    else (list + [Listed(name, bend)], delist[bend := delist[bend] + {name}], whlist)
  }

  /** n stands in the part of branch i's reading that has been filled in: all of it above
      branch b, the first pos names on b, nothing below. */
  ghost predicate Done(s: seq<seq<string>>, b: nat, pos: nat, n: string, i: nat)
    requires b <= |s| && (b < |s| ==> pos <= |s[b]|)
  {
    i < |s| && (if i < b then n in s[i] else i == b && n in s[b][..pos])
  }

  /** delist holds exactly the names shown by branch i among those done, whlist the whiteouts. */
  ghost predicate InDelist(p: DInfo, s: seq<seq<string>>, dl: set<string>, b: nat, pos: nat, n: string, i: nat)
    requires i < |s| == |p.h| && b <= |s| && (b < |s| ==> pos <= |s[b]|)
  {
    n in dl <==> Shown(p, s, n, i) && Done(s, b, pos, n, i)
  }

  ghost predicate InWhlist(p: DInfo, s: seq<seq<string>>, wl: set<string>, b: nat, pos: nat, n: string, i: nat)
    requires i < |s| == |p.h| && b <= |s| && (b < |s| ==> pos <= |s[b]|)
  {
    n in wl <==> n != "" && p.On(i) && Done(s, b, pos, WhName(n), i)
  }

  ghost predicate DelistOk(p: DInfo, s: seq<seq<string>>, delist: seq<set<string>>, b: nat, pos: nat) {
    && b <= |s| == |delist| == |p.h| && (b < |s| ==> pos <= |s[b]|)
    && forall i, n :: 0 <= i < |s| ==> InDelist(p, s, delist[i], b, pos, n, i)
  }

  ghost predicate WhlistOk(p: DInfo, s: seq<seq<string>>, whlist: seq<set<string>>, b: nat, pos: nat) {
    && b <= |s| == |whlist| == |p.h| && (b < |s| ==> pos <= |s[b]|)
    && forall i, n :: 0 <= i < |s| ==> InWhlist(p, s, whlist[i], b, pos, n, i)
  }

  /** The list is what delist holds, each name once. */
  ghost predicate ListOk(list: seq<Listed>, delist: seq<set<string>>) {
    && (forall n, i: nat :: Listed(n, i) in list <==> i < |delist| && n in delist[i])
    && (forall x, y :: 0 <= x < y < |list| ==> list[x].name != list[y].name)
  }

  /** Entry l was read before entry m: from a branch above, or earlier from the same one. */
  ghost predicate Before(s: seq<seq<string>>, l: Listed, m: Listed) {
    l.b < m.b || (l.b == m.b < |s| && exists i, j :: 0 <= i < j < |s[l.b]| && s[l.b][i] == l.name && s[l.b][j] == m.name)
  }

  ghost predicate InOrder(s: seq<seq<string>>, list: seq<Listed>) {
    forall x, y :: 0 <= x < y < |list| ==> Before(s, list[x], list[y])
  }

  ghost predicate FillInv(p: DInfo, s: seq<seq<string>>, list: seq<Listed>, delist: seq<set<string>>, whlist: seq<set<string>>,
                          b: nat, pos: nat) {
    DelistOk(p, s, delist, b, pos) && WhlistOk(p, s, whlist, b, pos) && ListOk(list, delist) && InOrder(s, list)
  }

  /** Known by name or by whiteout is met above. */
  lemma {:induction false} KnownIffMet(br: seq<Branch>, p: DInfo, d: Dir, s: seq<seq<string>>, list: seq<Listed>,
                                       delist: seq<set<string>>, whlist: seq<set<string>>, b: nat, pos: nat, n: string, c: nat)
    requires ReadsAll(br, p, d, s) && FillInv(p, s, list, delist, whlist, b, pos)
    requires c <= b && n != "" && !Mark(n)
    ensures Known(delist, whlist, c, n) <==> exists i :: 0 <= i < c && Met(p, s, n, i)
  {
    hide ListOk, Met, Shown;
    if c > 0 {
      KnownIffMet(br, p, d, s, list, delist, whlist, b, pos, n, c - 1);
      KnownHere(br, p, d, s, list, delist, whlist, b, pos, n, c - 1);
    }
  }

  lemma {:induction false} KnownHere(br: seq<Branch>, p: DInfo, d: Dir, s: seq<seq<string>>, list: seq<Listed>,
                                     delist: seq<set<string>>, whlist: seq<set<string>>, b: nat, pos: nat, n: string, i: nat)
    requires ReadsAll(br, p, d, s) && FillInv(p, s, list, delist, whlist, b, pos)
    requires i < b && n != "" && !Mark(n)
    ensures n in delist[i] || n in whlist[i] ==> Met(p, s, n, i)
    ensures Met(p, s, n, i) && !(exists k :: 0 <= k < i && Met(p, s, n, k)) ==> n in delist[i] || n in whlist[i]
  {
    hide ListOk;
    assert InDelist(p, s, delist[i], b, pos, n, i) && InWhlist(p, s, whlist[i], b, pos, n, i);
  }

  /** What is done after one more name of branch b. */
  lemma {:induction false} DoneStep(s: seq<seq<string>>, b: nat, pos: nat, n: string, i: nat)
    requires b < |s| && pos < |s[b]|
    ensures Done(s, b, pos + 1, n, i) <==> Done(s, b, pos, n, i) || (i == b && n == s[b][pos])
  {
    assert s[b][..pos + 1] == s[b][..pos] + [s[b][pos]];
  }

  /** The lists of names after one more name, which is listed or is not. */
  lemma {:induction false} DelistStep(p: DInfo, s: seq<seq<string>>, delist: seq<set<string>>, b: nat, pos: nat)
    requires DelistOk(p, s, delist, b, pos) && b < |s| && pos < |s[b]|
    ensures var name := s[b][pos];
            DelistOk(p, s, if Shown(p, s, name, b) then delist[b := delist[b] + {name}] else delist, b, pos + 1)
  {
    hide Shown, Done;
    var name := s[b][pos];
    var delist' := if Shown(p, s, name, b) then delist[b := delist[b] + {name}] else delist;
    var pos' := pos + 1;
    forall i, n | 0 <= i < |s| ensures InDelist(p, s, delist'[i], b, pos', n, i) {
      assert InDelist(p, s, delist[i], b, pos, n, i);
      DoneStep(s, b, pos, n, i);
    }
  }

  lemma {:induction false} WhlistStep(p: DInfo, s: seq<seq<string>>, whlist: seq<set<string>>, b: nat, pos: nat)
    requires WhlistOk(p, s, whlist, b, pos) && b < |s| && p.On(b) && pos < |s[b]|
    ensures var name := s[b][pos];
            WhlistOk(p, s, if Mark(name) then whlist[b := whlist[b] + {Stripped(name)}] else whlist, b, pos + 1)
  {
    hide Done;
    var name := s[b][pos];
    var whlist' := if Mark(name) then whlist[b := whlist[b] + {Stripped(name)}] else whlist;
    var pos' := pos + 1;
    forall i, n | 0 <= i < |s| ensures InWhlist(p, s, whlist'[i], b, pos', n, i) {
      assert InWhlist(p, s, whlist[i], b, pos, n, i);
      DoneStep(s, b, pos, WhName(n), i);
      if Mark(name) {
        WhNameOfStripped(name);
      }
    }
  }

  /** One more name in the list. */
  lemma {:induction false} ListStep(list: seq<Listed>, delist: seq<set<string>>, b: nat, name: string)
    requires ListOk(list, delist) && b < |delist| && forall x :: 0 <= x < |list| ==> list[x].name != name
    ensures ListOk(list + [Listed(name, b)], delist[b := delist[b] + {name}])
  {
    var list', delist' := list + [Listed(name, b)], delist[b := delist[b] + {name}];
    forall n, i: nat ensures Listed(n, i) in list' <==> i < |delist'| && n in delist'[i] {
      assert Listed(n, i) in list <==> i < |delist| && n in delist[i];
    }
  }

  /** What was listed before one more name of branch b was read before it. */
  lemma {:induction false} OrderStep(p: DInfo, s: seq<seq<string>>, list: seq<Listed>,
                                     delist: seq<set<string>>, whlist: seq<set<string>>, b: nat, pos: nat)
    requires FillInv(p, s, list, delist, whlist, b, pos) && b < |s| && pos < |s[b]|
    ensures InOrder(s, list + [Listed(s[b][pos], b)])
  {
    hide Before, Shown;
    forall x | 0 <= x < |list| ensures Before(s, list[x], Listed(s[b][pos], b)) {
      var l := list[x];
      assert Listed(l.name, l.b) in list;
      assert InDelist(p, s, delist[l.b], b, pos, l.name, l.b);
      DoneBefore(s, b, pos, l);
    }
  }

  lemma {:induction false} DoneBefore(s: seq<seq<string>>, b: nat, pos: nat, l: Listed)
    requires b < |s| && pos < |s[b]| && l.b < |s| && Done(s, b, pos, l.name, l.b)
    ensures Before(s, l, Listed(s[b][pos], b))
  {
    if l.b == b {
      var i :| 0 <= i < pos && s[b][..pos][i] == l.name;
      assert s[b][i] == l.name;
    }
  }

  /** A name already listed comes from a branch where it is met, so it is not new. */
  lemma {:induction false} NotTwice(p: DInfo, s: seq<seq<string>>, list: seq<Listed>,
                                    delist: seq<set<string>>, whlist: seq<set<string>>, b: nat, pos: nat, x: nat)
    requires FillInv(p, s, list, delist, whlist, b, pos)
    requires b < |s| && pos < |s[b]| && x < |list| && Shown(p, s, s[b][pos], b) && !Done(s, b, pos, s[b][pos], b)
    ensures list[x].name != s[b][pos]
  {
    var l := list[x];
    assert Listed(l.name, l.b) in list;
    assert InDelist(p, s, delist[l.b], b, pos, l.name, l.b);
    assert Shown(p, s, l.name, l.b) && Done(s, b, pos, l.name, l.b);
    assert l.b < b ==> Met(p, s, l.name, l.b);
  }

  /** Filling in the next name keeps the invariant. */
  lemma {:induction false} FilledStep(br: seq<Branch>, p: DInfo, d: Dir, s: seq<seq<string>>, list: seq<Listed>,
                                      delist: seq<set<string>>, whlist: seq<set<string>>, b: nat, pos: nat)
    requires ReadsAll(br, p, d, s) && FillInv(p, s, list, delist, whlist, b, pos)
    requires b < |s| && p.On(b) && pos < |s[b]|
    ensures |delist| == |whlist| == |s|
    ensures var r := Filled(list, delist, whlist, b, s[b][pos]);
            FillInv(p, s, r.0, r.1, r.2, b, pos + 1)
  {
    hide DelistOk, WhlistOk, ListOk, InOrder;
    var name := s[b][pos];
    assert name in s[b] && name != "" by {
      assert Reads(br[b], d, s[b]);
    }
    DelistStep(p, s, delist, b, pos);
    WhlistStep(p, s, whlist, b, pos);
    NewIffShown(br, p, d, s, list, delist, whlist, b, pos);
    if Shown(p, s, name, b) {
      NoneListed(br, p, d, s, list, delist, whlist, b, pos);
      ListStep(list, delist, b, name);
      OrderStep(p, s, list, delist, whlist, b, pos);
    }
  }

  /** A name is new exactly when this branch shows it. */
  lemma {:induction false} NewIffShown(br: seq<Branch>, p: DInfo, d: Dir, s: seq<seq<string>>, list: seq<Listed>,
                                       delist: seq<set<string>>, whlist: seq<set<string>>, b: nat, pos: nat)
    requires ReadsAll(br, p, d, s) && FillInv(p, s, list, delist, whlist, b, pos)
    requires b < |s| && p.On(b) && pos < |s[b]| && s[b][pos] != ""
    ensures |delist| == |whlist| == |s|
    ensures Shown(p, s, s[b][pos], b) <==> !Mark(s[b][pos]) && !Known(delist, whlist, b, s[b][pos])
  {
    hide ListOk;
    if !Mark(s[b][pos]) {
      KnownIffMet(br, p, d, s, list, delist, whlist, b, pos, s[b][pos], b);
    }
  }

  lemma {:induction false} NoneListed(br: seq<Branch>, p: DInfo, d: Dir, s: seq<seq<string>>, list: seq<Listed>,
                                      delist: seq<set<string>>, whlist: seq<set<string>>, b: nat, pos: nat)
    requires ReadsAll(br, p, d, s) && FillInv(p, s, list, delist, whlist, b, pos)
    requires b < |s| && p.On(b) && pos < |s[b]| && Shown(p, s, s[b][pos], b)
    ensures forall x :: 0 <= x < |list| ==> list[x].name != s[b][pos]
  {
    hide DelistOk, WhlistOk, ListOk, Shown;
    assert !Done(s, b, pos, s[b][pos], b) by {
      assert Reads(br[b], d, s[b]);
    }
    forall x | 0 <= x < |list| ensures list[x].name != s[b][pos] {
      NotTwice(p, s, list, delist, whlist, b, pos, x);
    }
  }

  /** Moving on to the next branch, or past one that does not hold the directory. */
  lemma {:induction false} NextBranch(br: seq<Branch>, p: DInfo, d: Dir, s: seq<seq<string>>, list: seq<Listed>,
                                      delist: seq<set<string>>, whlist: seq<set<string>>, b: nat, pos: nat)
    requires ReadsAll(br, p, d, s) && b < |s|
    requires FillInv(p, s, list, delist, whlist, b, pos)
    requires if p.On(b) then pos == |s[b]| else pos == 0
    ensures FillInv(p, s, list, delist, whlist, b + 1, 0)
  {
    var b' := b + 1;
    forall i, n | 0 <= i < |s|
      ensures InDelist(p, s, delist[i], b', 0, n, i) && InWhlist(p, s, whlist[i], b', 0, n, i)
    {
      assert InDelist(p, s, delist[i], b, pos, n, i) && InWhlist(p, s, whlist[i], b, pos, n, i);
      DoneNext(p, s, b, pos, n, i);
      DoneNext(p, s, b, pos, WhName(n), i);
    }
  }

  lemma {:induction false} DoneNext(p: DInfo, s: seq<seq<string>>, b: nat, pos: nat, n: string, i: nat)
    requires b < |s| == |p.h| && i < |s| && if p.On(b) then pos == |s[b]| else pos == 0
    ensures p.On(i) ==> (Done(s, b + 1, 0, n, i) <==> Done(s, b, pos, n, i))
  {
    assert p.On(b) ==> s[b][..pos] == s[b];
  }

  /** The complete merged listing: exactly the names shown, each once, with its branch, in the order in
      which they were read. */
  ghost predicate Complete(p: DInfo, s: seq<seq<string>>, list: seq<Listed>)
    requires |s| == |p.h|
  {
    && (forall n, j: nat :: Listed(n, j) in list <==> Shown(p, s, n, j))
    && (forall x, y :: 0 <= x < y < |list| ==> list[x].name != list[y].name)
    && InOrder(s, list)
  }

  lemma {:induction false} AllDone(p: DInfo, s: seq<seq<string>>, list: seq<Listed>, delist: seq<set<string>>, whlist: seq<set<string>>)
    requires FillInv(p, s, list, delist, whlist, |s|, 0)
    ensures Complete(p, s, list)
  {
    hide WhlistOk;
    forall n, j: nat ensures Listed(n, j) in list <==> Shown(p, s, n, j) {
      assert Listed(n, j) in list <==> j < |delist| && n in delist[j];
      if j < |s| {
        assert InDelist(p, s, delist[j], |s|, 0, n, j);
      }
    }
  }

  /** One branch's reading, in as many calls of the lower readdir as it takes: the last
      call delivers nothing. */
  method ReadBranch(br: seq<Branch>, p: DInfo, d: Dir, s: seq<seq<string>>, f: Filler, b: nat) returns (err: int)
    requires ReadsAll(br, p, d, s) && b < |br| && p.On(b)
    requires FillInv(p, s, f.list, f.delist, f.whlist, b, 0)
    modifies f
    ensures err <= 0
    ensures err == 0 ==> FillInv(p, s, f.list, f.delist, f.whlist, b, |s[b]|)
    ensures !FAULTS ==> err == 0
  {
    hide DelistOk, WhlistOk, ListOk, InOrder, Known;
    err := 0;
    var pos := 0;
    var called := true;
    while called
      invariant 0 <= pos <= |s[b]|
      invariant FillInv(p, s, f.list, f.delist, f.whlist, b, pos) && err == 0
      invariant !called ==> pos == |s[b]|
      decreases |s[b]| - pos, called
    {
      called := false;
      var chunk: int := *;
      ghost var start := pos;
      while pos < |s[b]| && (!called || chunk > 0)
        invariant start <= pos <= |s[b]| && (called <==> start < pos)
        invariant FillInv(p, s, f.list, f.delist, f.whlist, b, pos) && err == 0
        decreases |s[b]| - pos
      {
        called := true;
        chunk := chunk - 1;
        FilledStep(br, p, d, s, f.list, f.delist, f.whlist, b, pos);
        err := f.FillVdir(b, s[b][pos]);
        if err != 0 {
          return;
        }
        pos := pos + 1;
      }
    }
  }

  /** read_vdir: every branch that holds the directory is read to its end. */
  method ReadVdir(br: seq<Branch>, p: DInfo, d: Dir, s: seq<seq<string>>) returns (err: int, f: Filler)
    requires DirOk(|br|, p) && ReadsAll(br, p, d, s)
    ensures err <= 0 && fresh(f)
    ensures err == 0 ==> Complete(p, s, f.list)
    ensures !FAULTS ==> err == 0
  {
    hide FillInv, Complete, Reads;
    f := new Filler(|br|);
    FillStart(p, s, f.list, f.delist, f.whlist);
    err := 0;
    var bindex := 0;
    while bindex < |br|
      invariant 0 <= bindex <= |br|
      invariant FillInv(p, s, f.list, f.delist, f.whlist, bindex, 0) && err == 0
    {
      if p.On(bindex) {
        err := ReadBranch(br, p, d, s, f, bindex);
        if err != 0 {
          return;
        }
      }
      NextBranch(br, p, d, s, f.list, f.delist, f.whlist, bindex, if p.On(bindex) then |s[bindex]| else 0);
      bindex := bindex + 1;
    }
    AllDone(p, s, f.list, f.delist, f.whlist);
  }

  lemma {:induction false} FillStart(p: DInfo, s: seq<seq<string>>, list: seq<Listed>, delist: seq<set<string>>, whlist: seq<set<string>>)
    requires |s| == |p.h| == |delist| == |whlist| && list == []
    requires forall i :: 0 <= i < |s| ==> delist[i] == {} && whlist[i] == {}
    ensures FillInv(p, s, list, delist, whlist, 0, 0)
  {
  }
}
