/** readdir(2) from the branches to the caller: read_vdir, append_de, copy_vdir and au_fill_de together,
    against lookup. */
module Listdir {
  import opened Names
  import opened Stack
  import opened Lookup
  import opened Readdir
  import opened Util
  import opened VdirPack
  import opened VdirRead
  import Listing
  import W = VdirWrite

  /** Names are made of bytes. */
  predicate Narrow(n: string) {
    forall i :: 0 <= i < |n| ==> n[i] as int < 256
  }

  ghost predicate AllNarrow(s: seq<seq<string>>) {
    forall j, n :: 0 <= j < |s| && n in s[j] ==> Narrow(n)
  }

  function Octets(n: string): (o: seq<Byte>)
    requires Narrow(n)
    ensures |o| == |n|
  {
    seq(|n|, i requires 0 <= i < |n| => n[i] as int as Byte)
  }

  lemma {:induction false} OctetsDiffer(m: string, n: string)
    requires Narrow(m) && Narrow(n) && Octets(m) == Octets(n)
    ensures m == n
  {
    forall i | 0 <= i < |m| ensures m[i] == n[i] {
      assert Octets(m)[i] == Octets(n)[i];
    }
  }

  /** The inode number and the type that go with an entry. */
  type Attr = Listed -> (nat, Byte)

  ghost predicate AttrOk(attr: Attr) {
    forall l :: attr(l).0 < 0x1_0000_0000_0000_0000
  }

  /** What fillvdir appends for the entries listed. */
  function Des(list: seq<Listed>, attr: Attr): (es: seq<De>)
    requires forall x :: 0 <= x < |list| ==> Narrow(list[x].name)
    ensures |es| == |list|
  {
    seq(|list|, x requires 0 <= x < |list| => De(attr(list[x]).0, attr(list[x]).1, Octets(list[x].name)))
  }

  /** A listed name is one that some branch has. */
  lemma {:induction false} ListedOk(br: seq<Branch>, p: DInfo, d: Dir, s: seq<seq<string>>, list: seq<Listed>)
    requires ReadsAll(br, p, d, s) && Complete(p, s, list) && AllNarrow(s)
    ensures forall x :: 0 <= x < |list| ==> Narrow(list[x].name) && 1 <= |list[x].name| <= NAME_MAX
  {
    forall x | 0 <= x < |list| ensures Narrow(list[x].name) && 1 <= |list[x].name| <= NAME_MAX {
      var n, j := list[x].name, list[x].b;
      assert Listed(n, j) in list;
      assert Shown(p, s, n, j);
      assert Reads(br[j], d, s[j]);
    }
  }

  /** The whole of it: what is handed out is a correct log over the entries listed, and the list is
      the complete merge. */
  method ReadDir(br: seq<Branch>, p: DInfo, d: Dir, s: seq<seq<string>>, attr: Attr, reqs: seq<Req>)
    returns (err: int, log: seq<Event>, bs: seq<Block>, ghost list: seq<Listed>)
    requires DirOk(|br|, p) && ReadsAll(br, p, d, s) && AllNarrow(s) && AttrOk(attr)
    ensures err == 0 ==>
              && Complete(p, s, list) && (forall x :: 0 <= x < |list| ==> Narrow(list[x].name))
              && RestAt(bs, 0) == Des(list, attr) && Left(bs, RestAt(bs, 0), log).Some?
              && Shows(bs, Des(list, attr), log, Play(|list|, 0, reqs).0)
    ensures !FAULTS ==> err == 0
  {
    hide Complete, Reads, AllNarrow, RestAt, Left, Shows, Play, CalcSize, Packed;
    log, bs, list := [], [], [];
    var f;
    err, f := ReadVdir(br, p, d, s);
    if err != 0 {
      return;
    }
    list := f.list;
    ListedOk(br, p, d, s, list);
    var v := new W.Vdir();
    ghost var n;
    err, n := v.AppendAll(Des(f.list, attr));
    if err != 0 {
      return;
    }
    assert Des(list, attr)[..n] == Des(list, attr);
    err, log, bs := ReadBack(v, reqs);
  }

  /** What a caller sees of a directory from its start on is what lookup finds: each plain name handed
      out since is found, none comes twice, and once nothing is left none is missing. */
  lemma {:induction false} SeenIsFound(br: seq<Branch>, dirs: Dirs, d: Dir, s: seq<seq<string>>, list: seq<Listed>, attr: Attr,
                                       bs: seq<Block>, log: seq<Event>, i: nat, rest: seq<De>, n: string)
    requires AtRest(br, dirs) && d in dirs && ReadsAll(br, dirs[d], d, s) && Complete(dirs[d], s, list)
    requires forall x :: 0 <= x < |list| ==> Narrow(list[x].name)
    requires RestAt(bs, 0) == Des(list, attr) && Left(bs, RestAt(bs, 0), log) == Some(rest)
    requires i <= |log| && (forall k :: i <= k < |log| ==> log[k].Gave?) && (i == 0 || log[i - 1] == Seek(0))
    requires Plain(Key(d, n)) && !Dot(n) && Narrow(n)
    ensures forall k :: i <= k < |log| && log[k].de.name == Octets(n) ==> Found(br, dirs, Key(d, n))
    ensures forall k, l :: i <= k < |log| && i <= l < |log| && log[k].de.name == log[l].de.name ==> k == l
    ensures rest == [] && Found(br, dirs, Key(d, n)) ==> exists k :: i <= k < |log| && log[k].de.name == Octets(n)
  {
    hide RestAt, Left, Complete, Found, Stack.AtRest, Reads;
    var es := Des(list, attr);
    Since(bs, es, log, i, rest);
    ListedFound(br, dirs, d, s, list, n);
    forall k | i <= k < |log| ensures k - i < |list| && log[k].de == es[k - i] {
    }
    forall k | i <= k < |log| && log[k].de.name == Octets(n) ensures Found(br, dirs, Key(d, n)) {
      OctetsDiffer(list[k - i].name, n);
    }
    forall k, l | i <= k < |log| && i <= l < |log| && log[k].de.name == log[l].de.name ensures k == l {
      OctetsDiffer(list[k - i].name, list[l - i].name);
      Once(dirs[d], s, list, k - i, l - i);
    }
    if rest == [] && Found(br, dirs, Key(d, n)) {
      var x :| 0 <= x < |list| && list[x].name == n;
      assert log[i + x].de.name == Octets(n);
    }
  }

  /** Reads that ask for enough hand out the whole directory, in order and once: a name that can be
      looked up is among what they hand out iff a lookup finds it. */
  lemma {:induction false} EnoughReads(br: seq<Branch>, dirs: Dirs, d: Dir, s: seq<seq<string>>, list: seq<Listed>, attr: Attr,
                                       bs: seq<Block>, log: seq<Event>, reqs: seq<Req>, n: string)
    requires AtRest(br, dirs) && d in dirs && ReadsAll(br, dirs[d], d, s) && Complete(dirs[d], s, list)
    requires forall x :: 0 <= x < |list| ==> Narrow(list[x].name)
    requires Shows(bs, Des(list, attr), log, Play(|list|, 0, reqs).0)
    requires (forall k :: 0 <= k < |reqs| ==> reqs[k].Read?) && |list| <= Asked(reqs)
    requires Plain(Key(d, n)) && !Dot(n) && Narrow(n)
    ensures |log| == |list| && forall k :: 0 <= k < |log| ==> log[k].Gave? && log[k].de == Des(list, attr)[k]
    ensures Found(br, dirs, Key(d, n)) <==> exists k :: 0 <= k < |log| && log[k].Gave? && log[k].de.name == Octets(n)
  {
    hide RestAt, Play, Complete, Found, Reads, Stack.AtRest, Asked;
    PlayReads(|list|, 0, reqs);
    var es := Des(list, attr);
    forall k | 0 <= k < |log| ensures log[k].Gave? && log[k].de == es[k] {
      assert ShowsOne(bs, es, log[k], Entries(0, |list|)[k]);
    }
    ListedFound(br, dirs, d, s, list, n);
    if Found(br, dirs, Key(d, n)) {
      var x :| 0 <= x < |list| && list[x].name == n;
      assert log[x].de.name == Octets(n);
    }
    if k :| 0 <= k < |log| && log[k].de.name == Octets(n) {
      OctetsDiffer(list[k].name, n);
    }
  }

  /** A fresh lookup of k is positive. */
  ghost predicate Found(br: seq<Branch>, dirs: Dirs, k: Key)
    requires AtRest(br, dirs) && k.dir in dirs
  {
    Looked(br, dirs[k.dir], k, dirs[k.dir].bstart, None, Blank(|br|)).0 > 0
  }

  lemma {:induction false} ListedFound(br: seq<Branch>, dirs: Dirs, d: Dir, s: seq<seq<string>>, list: seq<Listed>, n: string)
    requires AtRest(br, dirs) && d in dirs && ReadsAll(br, dirs[d], d, s) && Complete(dirs[d], s, list)
    requires Plain(Key(d, n)) && !Dot(n)
    ensures Found(br, dirs, Key(d, n)) <==> exists x :: 0 <= x < |list| && list[x].name == n
  {
    Listing.LookupIffListed(br, dirs, d, s, list, n);
  }

  lemma {:induction false} Once(p: DInfo, s: seq<seq<string>>, list: seq<Listed>, x: nat, y: nat)
    requires |s| == |p.h| && Complete(p, s, list) && x < |list| && y < |list| && list[x].name == list[y].name
    ensures x == y
  {
  }

  /** Since the start the entries come in order. */
  lemma {:induction false} Since(bs: seq<Block>, first: seq<De>, log: seq<Event>, i: nat, rest: seq<De>)
    requires RestAt(bs, 0) == first && Left(bs, first, log) == Some(rest)
    requires i <= |log| && (forall k :: i <= k < |log| ==> log[k].Gave?) && (i == 0 || log[i - 1] == Seek(0))
    ensures |log| - i <= |first| && (rest == [] ==> |log| - i == |first|)
    ensures forall k :: i <= k < |log| ==> log[k].de == first[k - i]
  {
    hide RestAt;
    NothingLost(bs, first, log, i, rest);
    if i == 0 {
      assert log[..0] == [];
    }
    assert first == Handouts(log[i..]) + rest;
    forall k | i <= k < |log| ensures log[k].de == first[k - i] {
      assert log[i..][k - i] == log[k];
    }
  }
}
