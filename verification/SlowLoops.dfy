/** cpup.c and dentry.c: the loops that repair a path one directory at a time, always the
    topmost one first, found again from below each time. */
module SlowLoops {
  import opened Names

  /** The dentry tree: d_parent, the root being its own parent. */
  datatype Tree = Tree(root: nat, parent: map<nat, nat>, depth: map<nat, nat>) {
    ghost predicate Ok() {
      && root in parent && parent[root] == root && parent.Keys == depth.Keys
      && forall d :: d in parent ==> parent[d] in parent && (d != root ==> depth[parent[d]] < depth[d])
    }

    /** Everything above d, with the root. */
    ghost function Above(d: nat): set<nat>
      requires Ok() && d in parent
      decreases depth[d]
    {
      if d == root then {} else {parent[d]} + Above(parent[d])
    }

    /** A set of directories that holds the parent of each of its members. */
    ghost predicate Closed(s: set<nat>)
      requires Ok()
    {
      forall d :: d in s && d in parent ==> parent[d] in s
    }
  }

  /** What is above is above, all the way up. */
  lemma {:induction false} AboveUp(t: Tree, d: nat, a: nat)
    requires t.Ok() && d in t.parent && a in t.Above(d) && a != t.root
    ensures a in t.parent && t.parent[a] in t.Above(d)
    decreases t.depth[d]
  {
    if a != t.parent[d] {
      AboveUp(t, t.parent[d], a);
    }
  }

  /** With its parent, a closed set has everything above a dentry. */
  lemma {:induction false} ClosedAbove(t: Tree, s: set<nat>, d: nat)
    requires t.Ok() && t.Closed(s) && d in t.parent && (d != t.root ==> t.parent[d] in s)
    ensures t.Above(d) <= s
    decreases t.depth[d]
  {
    if d != t.root {
      ClosedAbove(t, s, t.parent[d]);
    }
  }

  class Branch {
    const t: Tree
    // the directories that have a lower dentry on bdst
    var present: set<nat>

    ghost predicate Valid()
      reads this
    {
      t.Ok() && t.root in present && t.Closed(present)
    }

    /** sio_cpup_simple of one directory: its parent must be there. */
    method CpupSimple(d: nat) returns (err: int)
      requires Valid() && d in t.parent && t.parent[d] in present
      modifies this
      ensures !FAULTS ==> err == 0
      ensures Valid() && err <= 0 && present == if err == 0 then old(present) + {d} else old(present)
    {
      err := LowerFault();
      if err == 0 {
        present := present + {d};
      }
    }

    /** The inner loop of cpup_dirs: climb to the topmost missing directory. */
    method TopMissing(dentry: nat) returns (d: nat)
      requires Valid() && dentry in t.parent && dentry != t.root && t.parent[dentry] !in present
      ensures d in t.Above(dentry) && d in t.parent && d !in present && t.parent[d] in present
    {
      var parent := t.parent[dentry];
      d := parent;
      parent := t.parent[d];
      while parent !in present
        invariant d in t.Above(dentry) && d in t.parent && d !in present && parent == t.parent[d]
        decreases t.depth[d]
      {
        AboveUp(t, dentry, d);
        d := parent;
        parent := t.parent[d];
      }
    }

    /** cpup_dirs: in the end everything above the dentry is there; whatever fails, what is there
        stays closed under parent, and nothing but what is above the dentry was added. */
    method CpupDirs(dentry: nat) returns (err: int)
      requires Valid() && dentry in t.parent && dentry != t.root
      modifies this
      ensures Valid() && err <= 0
      ensures old(present) <= present <= old(present) + t.Above(dentry)
      ensures err == 0 ==> t.Above(dentry) <= present
      ensures !FAULTS ==> err == 0
    {
      err := 0;
      if t.parent[dentry] == t.root {
        ClosedAbove(t, present, dentry);
        return;
      }
      while true
        invariant Valid() && err == 0
        invariant old(present) <= present <= old(present) + t.Above(dentry)
        decreases t.Above(dentry) - present
      {
        if t.parent[dentry] in present {
          ClosedAbove(t, present, dentry);
          return;
        }
        var d := TopMissing(dentry);
        err := CpupSimple(d);
        if err != 0 {
          break;
        }
      }
    }
  }

  class Generations {
    const t: Tree
    const sgen: int
    // di_generation
    var gen: map<nat, int>

    ghost predicate Valid()
      reads this
    {
      && t.Ok() && gen.Keys == t.parent.Keys && gen[t.root] == sgen
      && forall d :: d in gen ==> gen[d] <= sgen
    }

    /** au_refresh_hdentry and au_refresh_hinode of one dentry, under a refreshed parent. */
    method Refresh(d: nat) returns (err: int)
      requires Valid() && d in gen && gen[d] < sgen && gen[t.parent[d]] == sgen
      modifies this
      ensures Valid() && err <= 0
      ensures gen == old(gen)[d := sgen] || (err != 0 && gen == old(gen))
      ensures !FAULTS ==> err == 0
    {
      hide Tree.Ok;
      err := LowerFault();
      if err == 0 {
        var next := gen[d := sgen];
        assert next.Keys == gen.Keys;
        gen := next;
        err := LowerFault();
      }
    }

    /** The inner loop: climb while the parent is not current. */
    method TopStale(dentry: nat) returns (d: nat)
      requires Valid() && dentry in t.parent && gen[dentry] != sgen
      ensures d in {dentry} + t.Above(dentry) && d in gen && gen[d] != sgen && gen[t.parent[d]] == sgen
    {
      d := dentry;
      var parent := t.parent[d];
      while gen[parent] != sgen
        invariant d in {dentry} + t.Above(dentry) && d in gen && gen[d] != sgen && parent == t.parent[d]
        decreases t.depth[d]
      {
        if d != dentry {
          AboveUp(t, dentry, d);
        }
        d := parent;
        parent := t.parent[d];
      }
    }

    /** au_reval_dpath after a failed refresh of the directories: it ends and the dentry is
        current; a dentry is only refreshed under a current parent, so what is current stays
        closed under parent, and nothing but the path is touched. */
    method RevalDpath(dentry: nat) returns (err: int)
      requires Valid() && dentry in t.parent
      modifies this
      ensures Valid() && err <= 0 && (err == 0 ==> gen[dentry] == sgen)
      ensures Current(old(gen), sgen) <= Current(gen, sgen) <= Current(old(gen), sgen) + {dentry} + t.Above(dentry)
      ensures t.Closed(Current(old(gen), sgen)) ==> t.Closed(Current(gen, sgen))
      ensures !FAULTS ==> err == 0
    {
      hide Current, Tree.Ok, Tree.Closed;
      err := 0;
      ghost var path := {dentry} + t.Above(dentry);
      while gen[dentry] != sgen
        invariant Valid() && err == 0
        invariant Current(old(gen), sgen) <= Current(gen, sgen) <= Current(old(gen), sgen) + path
        invariant t.Closed(Current(old(gen), sgen)) ==> t.Closed(Current(gen, sgen))
        decreases path - Current(gen, sgen)
      {
        var d := TopStale(dentry);
        ghost var before := gen;
        if gen[d] < sgen {
          err := Refresh(d);
        }
        NowCurrent(t, before, d, sgen);
        if err != 0 {
          break;
        }
      }
    }
  }

  ghost function Current(gen: map<nat, int>, sgen: int): set<nat> {
    set d | d in gen && gen[d] == sgen
  }

  lemma {:induction false} NowCurrent(t: Tree, gen: map<nat, int>, d: nat, sgen: int)
    requires t.Ok() && gen.Keys == t.parent.Keys && d in gen && gen[d] != sgen && gen[t.parent[d]] == sgen
    ensures d !in Current(gen, sgen) && Current(gen[d := sgen], sgen) == Current(gen, sgen) + {d}
    ensures t.Closed(Current(gen, sgen)) ==> t.Closed(Current(gen[d := sgen], sgen))
  {
    assert Current(gen[d := sgen], sgen) == Current(gen, sgen) + {d};
  }
}
