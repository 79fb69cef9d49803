/**
 addMutation logs a mutation after it has let go of the corpus, so mutations of several pollers can be logged in another
 order than they were processed (maintner/maintner.go). For a project, the place of the others' commits does not matter.
 */
module Interleaving {
  import opened Basics
  import opened Git
  import opened GerritSpec
  import opened GerritReplay
  import opened GerritLog

  /** What an entry is after a commit has been filed. */
  lemma InstallAt(g: Graph, p: CommitProto, h: Hash)
    ensures var named := Parses(p) && h == p.sha1;
            && (h in Install(g, p) <==> named || h in g || h in Mentioned(p))
            && (h in Install(g, p) ==> Install(g, p)[h] == if named then Filled(RecordOf(p)) else if h in g then g[h] else Missing)
  {
  }

  /** Filing two commits of a content-addressed repository in either order gives the same graph. */
  lemma InstallsCommute(w: World, g: Graph, p: CommitProto, q: CommitProto)
    requires Addressed(w, FileForeign(p)) && Addressed(w, FileForeign(q))
    ensures Install(Install(g, p), q) == Install(Install(g, q), p)
  {
    var pq, qp := Install(Install(g, p), q), Install(Install(g, q), p);
    forall h ensures (h in pq <==> h in qp) && (h in pq ==> pq[h] == qp[h]) {
      InstallAt(g, p, h);
      InstallAt(g, q, h);
      InstallAt(Install(g, p), q, h);
      InstallAt(Install(g, q), p, h);
    }
  }

  /** Filing another project's commit before or after one action. */
  lemma PassesAction(w: World, s: State, p: CommitProto, a: Action)
    requires Addressed(w, FileForeign(p)) && Addressed(w, a) && !a.Finish? && (a.Point? ==> a.ref.hash in s.graph)
    ensures Do(w.rank, Do(w.rank, s, FileForeign(p)), a) == Do(w.rank, Do(w.rank, s, a), FileForeign(p))
  {
    if a.FileIt? || a.FileForeign? {
      InstallsCommute(w, s.graph, p, a.commit);
    }
  }

  lemma DoGrowsGraph(rank: Hash -> nat, s: State, a: Action)
    ensures s.graph.Keys <= Do(rank, s, a).graph.Keys
  {
    if a.FileIt? || a.FileForeign? {
      forall h | h in s.graph ensures h in Install(s.graph, a.commit) {
        InstallAt(s.graph, a.commit, h);
      }
    }
  }

  lemma {:induction false} GraphGrows(rank: Hash -> nat, s: State, actions: seq<Action>)
    ensures s.graph.Keys <= Exec(rank, s, actions).graph.Keys
  {
    if actions != [] {
      GraphGrows(rank, s, actions[..|actions| - 1]);
      DoGrowsGraph(rank, Exec(rank, s, actions[..|actions| - 1]), actions[|actions| - 1]);
    }
  }

  lemma {:induction false} PassesActions(w: World, s: State, p: CommitProto, actions: seq<Action>)
    requires Addressed(w, FileForeign(p)) && forall a | a in actions :: Addressed(w, a) && !a.Finish?
    requires forall a | a in actions && a.Point? :: a.ref.hash in s.graph
    ensures Exec(w.rank, Do(w.rank, s, FileForeign(p)), actions) == Do(w.rank, Exec(w.rank, s, actions), FileForeign(p))
  {
    if actions != [] {
      var init, last := actions[..|actions| - 1], actions[|actions| - 1];
      assert last in actions;
      PassesActions(w, s, p, init);
      GraphGrows(w.rank, s, init);
      PassesAction(w, Exec(w.rank, s, init), p, last);
    }
  }

  /** Filing another project's commit before or after a mutation whose refs have logged commits. */
  lemma PassesMutation(w: World, log: seq<Mutation>, p: CommitProto, m: Mutation)
    requires w.Valid() && Addressed(w, FileForeign(p)) && AddressedMutation(w, m)
    requires forall r | r in RefsIn(m) :: r.hash in Logged(log)
    ensures var s := Exec(w.rank, EMPTY_STATE, LogActions(log));
            Exec(w.rank, Do(w.rank, s, FileForeign(p)), Pieces(m)) == Do(w.rank, Exec(w.rank, s, Pieces(m)), FileForeign(p))
  {
    var s := Exec(w.rank, EMPTY_STATE, LogActions(log));
    AddressedPieces(w, m);
    LogLearns(w.rank, log);
    RunKeepsIndexed(w.rank, EMPTY_STATE, LogActions(log));
    PiecesAre(m);
    PassesActions(w, s, p, Pieces(m));
  }

  lemma PiecesAre(m: Mutation)
    ensures forall a | a in Pieces(m) :: !a.Finish? && (a.Point? ==> a.ref in RefsIn(m))
  {
    if m.GerritMutation? {
      ActionsOf(m.commits, m.deletedRefs, m.refs);
    }
  }

  lemma {:induction false} LogActionsAppend(a: seq<Mutation>, b: seq<Mutation>)
    ensures LogActions(a + b) == LogActions(a) + LogActions(b)
  {
    if b == [] {
      assert a + b == a;
    } else {
      LogActionsAppend(a, b[..|b| - 1]);
      assert (a + b)[..|a + b| - 1] == a + b[..|b| - 1];
      AppendAssoc(LogActions(a), LogActions(b[..|b| - 1]), Pieces(b[|b| - 1]));
    }
  }

  ghost function Reads(w: World, log: seq<Mutation>): State {
    Exec(w.rank, EMPTY_STATE, LogActions(log))
  }

  lemma ReadsAppend(w: World, a: seq<Mutation>, b: seq<Mutation>)
    ensures Reads(w, a + b) == Exec(w.rank, Reads(w, a), LogActions(b))
  {
    LogActionsAppend(a, b);
    ExecAppend(w.rank, EMPTY_STATE, LogActions(a), LogActions(b));
  }

  lemma ReadsOne(w: World, log: seq<Mutation>, m: Mutation)
    ensures Reads(w, log + [m]) == Exec(w.rank, Reads(w, log), Pieces(m))
  {
    assert (log + [m])[..|log|] == log;
    ExecAppend(w.rank, EMPTY_STATE, LogActions(log), Pieces(m));
  }

  lemma ReadsForeign(w: World, log: seq<Mutation>, p: CommitProto)
    ensures Reads(w, log + [GitMutation(p)]) == Do(w.rank, Reads(w, log), FileForeign(p))
  {
    ReadsOne(w, log, GitMutation(p));
    var s := Reads(w, log);
    assert Exec(w.rank, s, [FileForeign(p)]) == Do(w.rank, Exec(w.rank, s, []), FileForeign(p));
  }

  /** Filing another project's commit before or after some mutations of an ordered log. */
  lemma {:induction false} PassesLog(w: World, a: seq<Mutation>, p: CommitProto, c: seq<Mutation>)
    requires w.Valid() && LogOrdered(w, a + c) && AddressedMutation(w, GitMutation(p))
    requires forall m | m in c :: AddressedMutation(w, m)
    ensures Reads(w, a + [GitMutation(p)] + c) == Reads(w, a + c + [GitMutation(p)])
  {
    if c == [] {
      assert a + [GitMutation(p)] + c == a + c + [GitMutation(p)];
    } else {
      var init, m := c[..|c| - 1], c[|c| - 1];
      SplitLast(a, c);
      PassesLog(w, a, p, init);
      SplitLast(a + [GitMutation(p)], c);
      PassesOneMore(w, a + init, a + [GitMutation(p)] + init, p, m);
    }
  }

  lemma SplitLast(a: seq<Mutation>, c: seq<Mutation>)
    requires c != []
    ensures var init, m := c[..|c| - 1], c[|c| - 1];
            (a + c)[..|a + c| - 1] == a + init && a + init + [m] == a + c && (a + c)[|a + c| - 1] == m && m in c
  {
  }

  lemma PassesOneMore(w: World, log: seq<Mutation>, log': seq<Mutation>, p: CommitProto, m: Mutation)
    requires w.Valid() && AddressedMutation(w, GitMutation(p)) && AddressedMutation(w, m)
    requires Reads(w, log') == Reads(w, log + [GitMutation(p)])
    requires forall r | r in RefsIn(m) :: HistoryLogged(w, log, r.hash)
    ensures Reads(w, log' + [m]) == Reads(w, log + [m] + [GitMutation(p)])
  {
    forall r | r in RefsIn(m) ensures r.hash in Logged(log) {
      assert IsAncestor(w, r.hash, r.hash);
    }
    ReadsOne(w, log', m);
    ReadsForeign(w, log, p);
    PassesMutation(w, log, p, m);
    ReadsOne(w, log, m);
    ReadsForeign(w, log + [m], p);
  }

  /**
   Another project's commit may be logged later than it was processed: whoever reads the log comes to the same state,
   whatever mutations of this project went first.
   */
  lemma OthersMayComeLater(w: World, a: seq<Mutation>, p: CommitProto, c: seq<Mutation>, b: seq<Mutation>)
    requires w.Valid() && LogOrdered(w, a + c) && AddressedMutation(w, GitMutation(p))
    requires forall m | m in c :: AddressedMutation(w, m)
    ensures Exec(w.rank, EMPTY_STATE, FollowerActions(a + [GitMutation(p)] + c + b)) ==
            Exec(w.rank, EMPTY_STATE, FollowerActions(a + c + [GitMutation(p)] + b))
  {
    PassesLog(w, a, p, c);
    ReadsAppend(w, a + [GitMutation(p)] + c, b);
    ReadsAppend(w, a + c + [GitMutation(p)], b);
    ReadsAndFinishes(w, a + [GitMutation(p)] + c + b);
    ReadsAndFinishes(w, a + c + [GitMutation(p)] + b);
  }

  lemma ReadsAndFinishes(w: World, log: seq<Mutation>)
    ensures Exec(w.rank, EMPTY_STATE, FollowerActions(log)) == FinishAll(w.rank, Reads(w, log))
  {
    assert FollowerActions(log)[..|LogActions(log)|] == LogActions(log);
  }

  lemma {:induction false} ForeignLogsNothing(a: seq<Mutation>, p: CommitProto, c: seq<Mutation>)
    ensures Logged(a + [GitMutation(p)] + c) == Logged(a + c)
  {
    var log := a + [GitMutation(p)];
    if c == [] {
      assert log + c == log && a + c == a && log[..|log| - 1] == a;
    } else {
      SplitLast(a, c);
      SplitLast(log, c);
      ForeignLogsNothing(a, p, c[..|c| - 1]);
    }
  }

  lemma {:induction false} OrderedPrefix(w: World, a: seq<Mutation>, b: seq<Mutation>)
    requires w.Valid() && LogOrdered(w, a + b)
    ensures LogOrdered(w, a)
  {
    if b == [] {
      assert a + b == a;
    } else {
      SplitLast(a, b);
      OrderedPrefix(w, a, b[..|b| - 1]);
    }
  }

  /** An ordered log is ordered without another project's commit. */
  lemma {:induction false} OrderedWithout(w: World, a: seq<Mutation>, p: CommitProto, c: seq<Mutation>)
    requires w.Valid() && LogOrdered(w, a + [GitMutation(p)] + c)
    ensures LogOrdered(w, a + c)
  {
    var log := a + [GitMutation(p)];
    if c == [] {
      assert log + c == log && a + c == a && log[..|log| - 1] == a;
    } else {
      SplitLast(a, c);
      SplitLast(log, c);
      OrderedWithout(w, a, p, c[..|c| - 1]);
      ForeignLogsNothing(a, p, c[..|c| - 1]);
    }
  }

  /** So whoever reads the log in that other order reaches the leader's state too. */
  lemma ReorderedFollowersCatchUp(w: World, s: State, a: seq<Mutation>, p: CommitProto, c: seq<Mutation>, b: seq<Mutation>)
    requires w.Valid() && Leads(w, s, a + [GitMutation(p)] + c + b) && MetaBranchesGrow(w, RefsLogged(a + [GitMutation(p)] + c + b))
    ensures SameButNeed(s, Exec(w.rank, EMPTY_STATE, FollowerActions(a + c + [GitMutation(p)] + b)))
  {
    var log := a + [GitMutation(p)] + c + b;
    assert GitMutation(p) in log && forall m | m in c :: m in log;
    OrderedPrefix(w, a + [GitMutation(p)] + c, b);
    OrderedWithout(w, a, p, c);
    OthersMayComeLater(w, a, p, c, b);
    FollowersCatchUp(w, s, log);
  }
}
