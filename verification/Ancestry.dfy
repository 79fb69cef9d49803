/** GitCommit.HasAncestor: a depth-first search over parent pointers with one shared memo. */
module Ancestry {
  import opened Git

  /** Every parent of a commit of `nodes` is in `nodes`. */
  ghost predicate Closed(nodes: set<GitCommit>)
    reads nodes
  {
    forall c, p | c in nodes && p in c.parents :: p in nodes
  }

  /** h names a commit that is exactly n + 1 parent steps above gc. */
  ghost predicate ReachesIn(nodes: set<GitCommit>, gc: GitCommit, h: Hash, n: nat)
    requires gc in nodes && Closed(nodes)
    reads nodes
  {
    exists p | p in gc.parents :: if n == 0 then p.hash == h else ReachesIn(nodes, p, h, n - 1)
  }

  ghost predicate Reaches(nodes: set<GitCommit>, gc: GitCommit, h: Hash)
    requires gc in nodes && Closed(nodes)
    reads nodes
  {
    exists n: nat :: ReachesIn(nodes, gc, h, n)
  }

  /** A finished visit of gc that did not find h: its parents are other commits, already visited. */
  ghost predicate Clear(gc: GitCommit, h: Hash, visited: set<GitCommit>)
    reads gc
  {
    forall p | p in gc.parents :: p.hash != h && p in visited
  }

  /** A set of clear commits closed under parents has no way up to h. */
  lemma {:induction false} ClearNeverReaches(nodes: set<GitCommit>, clear: set<GitCommit>, gc: GitCommit, h: Hash, n: nat)
    requires Closed(nodes) && clear <= nodes && gc in clear
    requires forall c | c in clear :: Clear(c, h, clear)
    ensures !ReachesIn(nodes, gc, h, n)
  {
    if n > 0 {
      forall p | p in gc.parents ensures !ReachesIn(nodes, p, h, n - 1) {
        ClearNeverReaches(nodes, clear, p, h, n - 1);
      }
    }
  }

  /**
   The recursive search. `checked` holds false for every commit entered so far, finished or not;
   what a false answer adds to it is a set of clear commits.
   */
  method Search(gc: GitCommit, ancestor: Hash, checked: map<GitCommit, bool>, ghost nodes: set<GitCommit>)
    returns (found: bool, checked': map<GitCommit, bool>)
    requires gc in nodes && Closed(nodes) && checked.Keys <= nodes
    requires forall c | c in checked :: !checked[c]
    ensures checked.Keys <= checked'.Keys <= nodes
    ensures found ==> Reaches(nodes, gc, ancestor)
    ensures !found ==> gc in checked' && forall c | c in checked' :: !checked'[c]
    ensures !found ==> forall c | c in checked'.Keys - checked.Keys :: Clear(c, ancestor, checked'.Keys)
    decreases nodes - checked.Keys
  {
    if gc in checked {
      return checked[gc], checked;
    }
    checked' := checked[gc := false];
    var i := 0;
    while i < |gc.parents|
      invariant 0 <= i <= |gc.parents|
      invariant checked.Keys + {gc} <= checked'.Keys <= nodes
      invariant forall c | c in checked' :: !checked'[c]
      invariant forall p | p in gc.parents[..i] :: p.hash != ancestor && p in checked'
      invariant forall c | c in checked'.Keys - checked.Keys - {gc} :: Clear(c, ancestor, checked'.Keys)
    {
      var pc := gc.parents[i];
      if pc.hash == ancestor {
        assert ReachesIn(nodes, gc, ancestor, 0);
        return true, checked'[gc := true];
      }
      var above, checked'' := Search(pc, ancestor, checked', nodes);
      if above {
        ghost var n: nat :| ReachesIn(nodes, pc, ancestor, n);
        assert ReachesIn(nodes, gc, ancestor, n + 1);
        return true, checked''[gc := true];
      }
      forall c | c in checked'.Keys - checked.Keys - {gc} ensures Clear(c, ancestor, checked''.Keys) {
        assert Clear(c, ancestor, checked'.Keys);
      }
      checked' := checked'';
      i := i + 1;
    }
    found := false;
  }

  /**
   HasAncestor holds exactly when the ancestor's name is reached by one or more parent steps,
   on every finite graph of commits, cyclic ones included.
   */
  method HasAncestor(gc: GitCommit, ancestor: GitCommit, ghost nodes: set<GitCommit>) returns (found: bool)
    requires gc in nodes && Closed(nodes)
    ensures found <==> Reaches(nodes, gc, ancestor.hash)
  {
    var checked;
    found, checked := Search(gc, ancestor.hash, map[], nodes);
    if !found {
      forall n: nat ensures !ReachesIn(nodes, gc, ancestor.hash, n) {
        ClearNeverReaches(nodes, checked.Keys, gc, ancestor.hash, n);
      }
    }
  }
}
