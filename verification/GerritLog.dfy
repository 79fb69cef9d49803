/** What the leader's log promises its readers: laws about logs and the state of the leader that wrote them. */
module GerritLog {
  import opened Basics
  import opened Git
  import opened GerritSpec
  import opened GerritReplay

  /** The names of the commits a log holds. */
  function Logged(log: seq<Mutation>): set<Hash> {
    if log == [] then {} else Logged(log[..|log| - 1]) + NamesIn(log[|log| - 1])
  }

  function NamesIn(m: Mutation): set<Hash> {
    match m
    case GitMutation(_) => {}
    case GerritMutation(commits, _, _) => ParsedNames(commits)
  }

  function RefsIn(m: Mutation): seq<Ref> {
    match m
    case GitMutation(_) => []
    case GerritMutation(_, _, refs) => refs
  }

  /** All refs of a log, in order. */
  function RefsLogged(log: seq<Mutation>): seq<Ref> {
    if log == [] then [] else RefsLogged(log[..|log| - 1]) + RefsIn(log[|log| - 1])
  }

  /** Every commit from h down to the roots is in the log. */
  ghost predicate HistoryLogged(w: World, log: seq<Mutation>, h: Hash)
    requires w.Valid()
  {
    forall a | IsAncestor(w, a, h) :: a in Logged(log)
  }

  /** Whenever refs are logged, the whole history of each is already in the log. */
  ghost predicate LogOrdered(w: World, log: seq<Mutation>)
    requires w.Valid()
  {
    log == [] ||
    (LogOrdered(w, log[..|log| - 1]) &&
     forall r | r in RefsIn(log[|log| - 1]) :: HistoryLogged(w, log[..|log| - 1], r.hash))
  }

  /** What adding a mutation does to the leader: process it, then clean up. */
  function Added(rank: Hash -> nat, s: State, m: Mutation): State {
    FinishAll(rank, Exec(rank, s, Pieces(m)))
  }

  /**
   The leader's state s and its log agree: it knows exactly the commits it logged, it still asks
   for every parent it does not know, it has only logged ordered refs, and apart from what it is
   asking for its state is the one the log gives.
   */
  ghost predicate Leads(w: World, s: State, log: seq<Mutation>)
    requires w.Valid()
  {
    && Consistent(w, s)
    && Worklist(s)
    && s.commit.Keys == Logged(log)
    && LogOrdered(w, log)
    && (forall m | m in log :: AddressedMutation(w, m))
    && SameButNeed(s, Exec(w.rank, EMPTY_STATE, LeaderActions(log)))
  }

  predicate SameButNeed(s: State, t: State) {
    s.(need := {}) == t.(need := {})
  }

  lemma DoIgnoresNeed(rank: Hash -> nat, s: State, t: State, a: Action)
    requires SameButNeed(s, t)
    ensures SameButNeed(Do(rank, s, a), Do(rank, t, a))
  {
    assert t == s.(need := t.need);
    match a
    case FileIt(p) => FileIgnoresNeed(s, t.need, p);
    case FileForeign(p) =>
    case DeleteRef(_) =>
    case Point(r) => PointIgnoresNeed(s, t.need, r);
    case Finish => FinishIgnoresNeed(rank, s, t.need);
  }

  lemma FileIgnoresNeed(s: State, need: set<Hash>, p: CommitProto)
    ensures SameButNeed(FileCommit(s, p), FileCommit(s.(need := need), p))
  {
  }

  lemma PointIgnoresNeed(s: State, need: set<Hash>, r: Ref)
    ensures SameButNeed(SetRef(s, r), SetRef(s.(need := need), r))
  {
    assert r.name.ChangeRef? ==> GetCL(s.(need := need), r.name.number) == GetCL(s, r.name.number);
  }

  lemma FinishIgnoresNeed(rank: Hash -> nat, s: State, need: set<Hash>)
    ensures SameButNeed(FinishAll(rank, s), FinishAll(rank, s.(need := need)))
  {
  }

  lemma {:induction false} ExecIgnoresNeed(rank: Hash -> nat, s: State, t: State, actions: seq<Action>)
    requires SameButNeed(s, t)
    ensures SameButNeed(Exec(rank, s, actions), Exec(rank, t, actions))
  {
    if actions != [] {
      var before := actions[..|actions| - 1];
      ExecIgnoresNeed(rank, s, t, before);
      DoIgnoresNeed(rank, Exec(rank, s, before), Exec(rank, t, before), actions[|actions| - 1]);
    }
  }

  // ---- The known commits after a mutation ----

  function ParsedNames(ps: seq<CommitProto>): set<Hash> {
    set p | p in ps && Parses(p) :: p.sha1
  }

  lemma NamesMore(ps: seq<CommitProto>)
    requires ps != []
    ensures var p := ps[|ps| - 1]; ParsedNames(ps) == ParsedNames(ps[..|ps| - 1]) + if Parses(p) then {p.sha1} else {}
  {
    assert ps == ps[..|ps| - 1] + [ps[|ps| - 1]];
  }

  lemma {:induction false} FilingLearns(rank: Hash -> nat, s: State, ps: seq<CommitProto>)
    ensures Exec(rank, s, FileActions(ps)).commit.Keys == s.commit.Keys + ParsedNames(ps)
  {
    if ps != [] {
      var before := ps[..|ps| - 1];
      FilingLearns(rank, s, before);
      NamesMore(ps);
      FileMore(rank, s, ps);
    }
  }

  predicate IsRefAction(a: Action) {
    a.DeleteRef? || a.Point?
  }

  lemma {:induction false} RefsLearnNothing(rank: Hash -> nat, s: State, actions: seq<Action>)
    requires forall a | a in actions :: IsRefAction(a)
    ensures Exec(rank, s, actions).commit == s.commit && Exec(rank, s, actions).need == s.need
  {
    if actions != [] {
      RefsLearnNothing(rank, s, actions[..|actions| - 1]);
      assert IsRefAction(actions[|actions| - 1]);
    }
  }

  lemma MutationLearns(rank: Hash -> nat, s: State, m: Mutation)
    ensures Exec(rank, s, Pieces(m)).commit.Keys == s.commit.Keys + NamesIn(m)
    ensures m.GerritMutation? ==>
              var t := Exec(rank, s, FileActions(m.commits));
              Exec(rank, s, Pieces(m)).need == t.need && Exec(rank, s, Pieces(m)).commit == t.commit
  {
    match m
    case GitMutation(p) =>
      assert Exec(rank, s, [FileForeign(p)]) == Do(rank, Exec(rank, s, []), FileForeign(p));
    case GerritMutation(commits, deletedRefs, refs) =>
      ActionsOf(commits, deletedRefs, refs);
      var tail := DeleteActions(deletedRefs) + PointActions(refs);
      assert Pieces(m) == FileActions(commits) + tail;
      ExecAppend(rank, s, FileActions(commits), tail);
      FilingLearns(rank, s, commits);
      RefsLearnNothing(rank, Exec(rank, s, FileActions(commits)), tail);
  }

  /** Adding a mutation whose refs all point into the log keeps leader and log in agreement. */
  lemma AddKeepsLeads(w: World, s: State, log: seq<Mutation>, m: Mutation)
    requires w.Valid() && Leads(w, s, log) && AddressedMutation(w, m)
    requires forall r | r in RefsIn(m) :: HistoryLogged(w, log, r.hash)
    ensures Leads(w, Added(w.rank, s, m), log + [m])
  {
    var log' := log + [m];
    assert log'[..|log'| - 1] == log;
    MutationLearns(w.rank, s, m);
    AddressedPieces(w, m);
    RunKeepsConsistent(w, s, Pieces(m));
    RunKeepsWorklist(w.rank, s, Pieces(m));
    var t := Exec(w.rank, s, Pieces(m));
    DoKeepsConsistent(w, t, Finish);
    DoKeepsWorklist(w.rank, t, Finish);
    AddKeepsAgreement(w.rank, s, log, m);
  }

  lemma AddKeepsAgreement(rank: Hash -> nat, s: State, log: seq<Mutation>, m: Mutation)
    requires SameButNeed(s, Exec(rank, EMPTY_STATE, LeaderActions(log)))
    ensures SameButNeed(Added(rank, s, m), Exec(rank, EMPTY_STATE, LeaderActions(log + [m])))
  {
    var u, more := Exec(rank, EMPTY_STATE, LeaderActions(log)), Pieces(m) + [Finish];
    assert (log + [m])[..|log|] == log;
    AppendAssoc(LeaderActions(log), Pieces(m), [Finish]);
    assert LeaderActions(log + [m]) == LeaderActions(log) + more;
    ExecAppend(rank, EMPTY_STATE, LeaderActions(log), more);
    ExecIgnoresNeed(rank, s, u, more);
    assert more[..|more| - 1] == Pieces(m);
    assert Exec(rank, s, more) == Added(rank, s, m);
  }

  /** Asking for one more unknown commit changes nothing else. */
  lemma MarkKeepsLeads(w: World, s: State, log: seq<Mutation>, hs: set<Hash>)
    requires w.Valid() && Leads(w, s, log) && hs !! s.commit.Keys
    ensures Leads(w, s.(need := s.need + hs), log)
  {
  }

  /** A mutation of one commit that parses: only the graph, the known commits and the worklist move. */
  lemma AddOneCommit(rank: Hash -> nat, s: State, p: CommitProto)
    requires Parses(p)
    ensures var t := Added(rank, s, GerritMutation([p], [], []));
            t.commit == FileCommit(s, p).commit && t.need == FileCommit(s, p).need && t.remote == s.remote && t.ref == s.ref
  {
    assert FileActions([p]) == FileActions([p][..0]) + [FileIt(p)];
    assert Pieces(GerritMutation([p], [], [])) == [FileIt(p)];
    assert Exec(rank, s, [FileIt(p)]) == Do(rank, Exec(rank, s, []), FileIt(p));
  }

  /** A mutation that deletes refs: those refs are gone, and nothing is learned. */
  lemma AddDeletion(rank: Hash -> nat, s: State, names: seq<string>)
    ensures var t := Added(rank, s, GerritMutation([], names, []));
            t.ref == s.ref - (set n | n in names) && t.remote == s.remote && t.commit == s.commit && t.need == s.need
  {
    DeletingForgets(rank, s, names);
    assert Pieces(GerritMutation([], names, [])) == DeleteActions(names);
  }

  // ---- Which refs a listing changes ----

  /** trackGerritRef, for the refs that are not under refs/meta/. */
  predicate IsTracked(name: string) {
    !("refs/users/" <= name) && !("refs/cache-automerge/" <= name)
  }

  /** The poll's test of one line of a listing: the ref is tracked and is not where we last saw it. */
  predicate NeedsFetch(s: State, r: Ref) {
    match r.name
    case ChangeRef(number, version) => (number, version) !in s.remote || s.remote[(number, version)] != r.hash
    case PlainRef(name) => IsTracked(name) && (name !in s.ref || s.ref[name] != r.hash)
    case BadChangeRef => false
    case ConfigRef => false
  }

  function ChangedRefs(s: State, listing: seq<Ref>): seq<Ref> {
    if listing == [] then []
    else
      var rest := ChangedRefs(s, listing[..|listing| - 1]);
      if NeedsFetch(s, listing[|listing| - 1]) then rest + [listing[|listing| - 1]] else rest
  }

  /** The maps of the project have the listed ref at the hash that is listed, unless it is one the code does not track. */
  predicate HasRef(remote: map<(int, int), Hash>, ref: map<string, Hash>, r: Ref) {
    match r.name
    case ChangeRef(number, version) => (number, version) in remote && remote[(number, version)] == r.hash
    case PlainRef(name) =>
      "refs/users/" <= name || "refs/cache-automerge/" <= name || (name in ref && ref[name] == r.hash)
    case BadChangeRef => true
    case ConfigRef => true
  }

  /** A ref is polled exactly when the maps do not have it where the listing shows it. */
  lemma {:induction false} ChangedRefsIs(s: State, listing: seq<Ref>)
    ensures forall r :: r in ChangedRefs(s, listing) <==> r in listing && NeedsFetch(s, r)
    ensures forall r :: r in ChangedRefs(s, listing) <==> r in listing && !HasRef(s.remote, s.ref, r)
  {
    if listing != [] {
      ChangedRefsIs(s, listing[..|listing| - 1]);
      assert listing == listing[..|listing| - 1] + [listing[|listing| - 1]];
    }
  }

  /** The changed refs come in the order of the listing, each as often as it is listed. */
  lemma {:induction false} ChangedInOrder(s: State, a: seq<Ref>, b: seq<Ref>)
    ensures ChangedRefs(s, a + b) == ChangedRefs(s, a) + ChangedRefs(s, b)
    ensures forall r :: ChangedRefs(s, [r]) == if HasRef(s.remote, s.ref, r) then [] else [r]
  {
    forall r ensures ChangedRefs(s, [r]) == if HasRef(s.remote, s.ref, r) then [] else [r] {
      assert [r][..0] == [];
    }
    if b == [] {
      assert a + b == a;
    } else {
      ChangedInOrder(s, a, b[..|b| - 1]);
      assert (a + b)[..|a + b| - 1] == a + b[..|b| - 1];
    }
  }

  // ---- The order of the log ----

  /** With nothing left to ask for, the history of every known commit is known. */
  lemma {:induction false} KnownHistoryIsLogged(w: World, s: State, h: Hash, a: Hash)
    requires w.Valid() && Consistent(w, s) && Worklist(s) && s.need == {}
    requires h in s.commit && IsAncestor(w, a, h)
    ensures a in s.commit
    decreases w.rank(h)
  {
    if a != h {
      var q :| q in w.content(h).parents && IsAncestor(w, a, q);
      assert q in s.commit[h];
      KnownHistoryIsLogged(w, s, q, a);
    }
  }

  // ---- From the leader's log to its followers ----

  /** What Gerrit promises about meta branches: they are linear and only grow. */
  ghost predicate MetaBranchesGrow(w: World, refs: seq<Ref>)
    requires w.Valid()
  {
    && (forall r, a | r in refs && IsMeta(Point(r)) && IsAncestor(w, a, r.hash) :: |w.content(a).parents| <= 1)
    && forall j, k | 0 <= j < k < |refs| && IsMeta(Point(refs[j])) && refs[j].name == refs[k].name ::
         IsAncestor(w, refs[j].hash, refs[k].hash)
  }

  ghost predicate OnlyPoints(actions: seq<Action>, refs: seq<Ref>) {
    forall r | Point(r) in actions :: r in refs
  }

  lemma {:induction false} FilesAreWellFormed(w: World, before: seq<Action>, more: seq<Action>, refs: seq<Ref>)
    requires w.Valid() && WellFormed(w, before) && OnlyPoints(before, refs)
    requires forall a | a in more :: Addressed(w, a) && !a.Point?
    ensures WellFormed(w, before + more) && OnlyPoints(before + more, refs)
  {
    if more == [] {
      assert before + more == before;
    } else {
      var n := |more| - 1;
      FilesAreWellFormed(w, before, more[..n], refs);
      assert (before + more)[..|before + more| - 1] == before + more[..n];
      assert more[n] in more;
    }
  }

  /** One more ref whose history is filed, on a branch that grows. */
  lemma PointIsWellFormed(w: World, before: seq<Action>, done: seq<Ref>, r: Ref)
    requires w.Valid() && WellFormed(w, before) && OnlyPoints(before, done)
    requires MetaBranchesGrow(w, done + [r]) && forall a | IsAncestor(w, a, r.hash) :: a in Filed(before)
    ensures WellFormed(w, before + [Point(r)]) && OnlyPoints(before + [Point(r)], done + [r])
  {
    var all := done + [r];
    assert all[|done|] == r;
    if IsMeta(Point(r)) {
      assert Linear(w, r.hash);
      forall b | b in before && IsMeta(b) && b.ref.name == r.name ensures IsAncestor(w, b.ref.hash, r.hash) {
        assert b == Point(b.ref);
        var j :| 0 <= j < |done| && done[j] == b.ref;
        assert all[j] == b.ref;
      }
    }
    assert MayFollow(w, before, Point(r));
    assert (before + [Point(r)])[..|before|] == before;
  }

  lemma {:induction false} PointsAreWellFormed(w: World, before: seq<Action>, done: seq<Ref>, refs: seq<Ref>)
    requires w.Valid() && WellFormed(w, before) && OnlyPoints(before, done)
    requires MetaBranchesGrow(w, done + refs)
    requires forall r, a | r in refs && IsAncestor(w, a, r.hash) :: a in Filed(before)
    ensures WellFormed(w, before + PointActions(refs)) && OnlyPoints(before + PointActions(refs), done + refs)
  {
    if refs == [] {
      assert before + PointActions(refs) == before && done + refs == done;
    } else {
      var n, r := |refs| - 1, refs[|refs| - 1];
      var earlier, seen := before + PointActions(refs[..n]), done + refs[..n];
      assert done + refs == seen + [r];
      GrowthPrefix(w, seen, r);
      PointsAreWellFormed(w, before, done, refs[..n]);
      FiledAppend(before, PointActions(refs[..n]));
      assert r in refs;
      PointIsWellFormed(w, earlier, seen, r);
      AppendAssoc(before, PointActions(refs[..n]), [Point(r)]);
    }
  }

  lemma GrowthPrefix(w: World, refs: seq<Ref>, r: Ref)
    requires w.Valid() && MetaBranchesGrow(w, refs + [r])
    ensures MetaBranchesGrow(w, refs)
  {
    forall j, k | 0 <= j < k < |refs| && IsMeta(Point(refs[j])) && refs[j].name == refs[k].name
      ensures IsAncestor(w, refs[j].hash, refs[k].hash)
    {
      assert (refs + [r])[j] == refs[j] && (refs + [r])[k] == refs[k];
    }
  }

  lemma {:induction false} GrowthPrefixes(w: World, refs: seq<Ref>, more: seq<Ref>)
    requires w.Valid() && MetaBranchesGrow(w, refs + more)
    ensures MetaBranchesGrow(w, refs)
  {
    if more == [] {
      assert refs + more == refs;
    } else {
      assert refs + more == (refs + more[..|more| - 1]) + [more[|more| - 1]];
      GrowthPrefix(w, refs + more[..|more| - 1], more[|more| - 1]);
      GrowthPrefixes(w, refs, more[..|more| - 1]);
    }
  }

  /** An ordered log over growing meta branches is one that leader and follower agree on. */
  lemma {:induction false} OrderedLogIsWellFormed(w: World, log: seq<Mutation>)
    requires w.Valid() && LogOrdered(w, log) && MetaBranchesGrow(w, RefsLogged(log))
    requires forall m | m in log :: AddressedMutation(w, m)
    ensures WellFormed(w, LogActions(log)) && OnlyPoints(LogActions(log), RefsLogged(log))
    ensures Logged(log) <= Filed(LogActions(log))
  {
    if log != [] {
      var before, m := log[..|log| - 1], log[|log| - 1];
      GrowthPrefixes(w, RefsLogged(before), RefsIn(m));
      OrderedLogIsWellFormed(w, before);
      AddressedPieces(w, m);
      match m
      case GitMutation(p) =>
        assert RefsLogged(log) == RefsLogged(before);
        FilesAreWellFormed(w, LogActions(before), Pieces(m), RefsLogged(before));
        FiledAppend(LogActions(before), Pieces(m));
      case GerritMutation(commits, deletedRefs, refs) =>
        ActionsOf(commits, deletedRefs, refs);
        var front := FileActions(commits) + DeleteActions(deletedRefs);
        FilesAreWellFormed(w, LogActions(before), front, RefsLogged(before));
        FiledAppend(LogActions(before), front);
        NamesAreFiled(commits, deletedRefs);
        var acts := LogActions(before) + front;
        forall r, a | r in refs && IsAncestor(w, a, r.hash) ensures a in Filed(acts) {
          assert r in RefsIn(m);
          assert HistoryLogged(w, before, r.hash);
        }
        PointsAreWellFormed(w, acts, RefsLogged(before), refs);
        FiledAppend(acts, PointActions(refs));
        AppendAssoc(LogActions(before), front, PointActions(refs));
    }
  }

  lemma FiledAppend(a: seq<Action>, b: seq<Action>)
    ensures Filed(a + b) == Filed(a) + Filed(b)
  {
  }

  lemma NamesAreFiled(commits: seq<CommitProto>, deletedRefs: seq<string>)
    ensures (set p | p in commits && Parses(p) :: p.sha1) <= Filed(FileActions(commits) + DeleteActions(deletedRefs))
  {
    ActionsOf(commits, deletedRefs, []);
    var acts := FileActions(commits) + DeleteActions(deletedRefs);
    forall p | p in commits && Parses(p) ensures p.sha1 in Filed(acts) {
      assert FileIt(p) in acts;
    }
  }

  /** Whoever reads the leader's log reaches the leader's state, but for what the leader is still asking for. */
  lemma FollowersCatchUp(w: World, s: State, log: seq<Mutation>)
    requires w.Valid() && Leads(w, s, log) && MetaBranchesGrow(w, RefsLogged(log))
    ensures SameButNeed(s, Exec(w.rank, EMPTY_STATE, FollowerActions(log)))
  {
    OrderedLogIsWellFormed(w, log);
    LeaderFollowerAgree(w, log);
  }

  // ---- A leader starts from its own log ----

  lemma {:induction false} LogLearns(rank: Hash -> nat, log: seq<Mutation>)
    ensures Exec(rank, EMPTY_STATE, LogActions(log)).commit.Keys == Logged(log)
  {
    if log != [] {
      var before, m := log[..|log| - 1], log[|log| - 1];
      LogLearns(rank, before);
      ExecAppend(rank, EMPTY_STATE, LogActions(before), Pieces(m));
      MutationLearns(rank, Exec(rank, EMPTY_STATE, LogActions(before)), m);
    }
  }

  lemma {:induction false} AddressedLog(w: World, log: seq<Mutation>)
    requires forall m | m in log :: AddressedMutation(w, m)
    ensures forall a | a in LogActions(log) :: Addressed(w, a)
  {
    if log != [] {
      var before, m := log[..|log| - 1], log[|log| - 1];
      assert log == before + [m];
      AddressedLog(w, before);
      AddressedPieces(w, m);
    }
  }

  /** Whoever has replayed an ordered log over growing meta branches may lead it from there. */
  lemma ReplayLeads(w: World, log: seq<Mutation>)
    requires w.Valid() && LogOrdered(w, log) && MetaBranchesGrow(w, RefsLogged(log))
    requires forall m | m in log :: AddressedMutation(w, m)
    ensures Leads(w, Exec(w.rank, EMPTY_STATE, FollowerActions(log)), log)
  {
    var s := Exec(w.rank, EMPTY_STATE, LogActions(log));
    var acts := FollowerActions(log);
    assert acts[..|acts| - 1] == LogActions(log);
    assert Exec(w.rank, EMPTY_STATE, acts) == FinishAll(w.rank, s);
    AddressedLog(w, log);
    RunKeepsConsistent(w, EMPTY_STATE, acts);
    RunKeepsWorklist(w.rank, EMPTY_STATE, acts);
    LogLearns(w.rank, log);
    OrderedLogIsWellFormed(w, log);
    LeaderFollowerAgree(w, log);
  }

  // ---- A poll leaves no ref behind ----

  /** No two refs of a listing have the same name, as far as names are tracked. */
  predicate Apart(refs: seq<Ref>) {
    forall i, j :: 0 <= i < j < |refs| && (refs[i].name.ChangeRef? || refs[i].name.PlainRef?) ==> refs[i].name != refs[j].name
  }

  function NamesOf(refs: seq<Ref>): set<RefName> {
    set r | r in refs :: r.name
  }

  predicate Indexed(s: State) {
    s.commit.Keys <= s.graph.Keys
  }

  lemma DoKeepsIndexed(rank: Hash -> nat, s: State, a: Action)
    requires Indexed(s)
    ensures Indexed(Do(rank, s, a))
  {
    match a
    case FileIt(p) =>
    case FileForeign(p) =>
    case DeleteRef(_) =>
    case Point(_) =>
    case Finish =>
  }

  /** Every known commit is in the graph. */
  lemma {:induction false} RunKeepsIndexed(rank: Hash -> nat, s: State, actions: seq<Action>)
    requires Indexed(s)
    ensures Indexed(Exec(rank, s, actions))
  {
    if actions != [] {
      RunKeepsIndexed(rank, s, actions[..|actions| - 1]);
      DoKeepsIndexed(rank, Exec(rank, s, actions[..|actions| - 1]), actions[|actions| - 1]);
    }
  }

  lemma LeaderIsIndexed(w: World, s: State, log: seq<Mutation>)
    requires w.Valid() && Leads(w, s, log)
    ensures Indexed(s)
  {
    RunKeepsIndexed(w.rank, EMPTY_STATE, LeaderActions(log));
  }

  /** Refs that were pointed at known commits need no fetch, and other refs are as before. */
  lemma {:induction false} PointingSettles(rank: Hash -> nat, s: State, refs: seq<Ref>, r: Ref)
    requires Apart(refs) && forall q | q in refs :: q.hash in s.graph
    ensures var t := Exec(rank, s, PointActions(refs));
            && t.graph == s.graph
            && (r in refs ==> !NeedsFetch(t, r))
            && (r.name !in NamesOf(refs) ==> (NeedsFetch(t, r) <==> NeedsFetch(s, r)))
  {
    if refs != [] {
      var n := |refs| - 1;
      var init, last := refs[..n], refs[n];
      PointMore(rank, s, refs);
      RefsMore(refs, r);
      PointingSettles(rank, s, init, r);
      var t := Exec(rank, s, PointActions(init));
      PointOne(t, last, r);
      if r in init && r != last && r.name == last.name {
        NeverFetched(SetRef(t, last), r);
      }
    }
  }

  lemma RefsMore(refs: seq<Ref>, r: Ref)
    requires refs != [] && Apart(refs)
    ensures var init, last := refs[..|refs| - 1], refs[|refs| - 1];
            && Apart(init)
            && (r in refs <==> r in init || r == last)
            && (r.name !in NamesOf(refs) ==> r.name !in NamesOf(init) && r.name != last.name)
            && (r in init && r != last && r.name == last.name ==> r.name.BadChangeRef? || r.name.ConfigRef?)
  {
    var n := |refs| - 1;
    var init, last := refs[..n], refs[n];
    assert refs == init + [last];
    if r in init && r != last && r.name == last.name {
      var i :| 0 <= i < n && refs[i] == r;
    }
  }

  lemma NeverFetched(s: State, r: Ref)
    requires r.name.BadChangeRef? || r.name.ConfigRef?
    ensures !NeedsFetch(s, r)
  {
  }

  lemma PointOne(s: State, q: Ref, r: Ref)
    requires q.hash in s.graph
    ensures var t := SetRef(s, q);
            && t.graph == s.graph
            && (r == q ==> !NeedsFetch(t, r))
            && (r.name != q.name ==> (NeedsFetch(t, r) <==> NeedsFetch(s, r)))
  {
  }

  /** Logging refs of known commits: they need no fetch afterwards, and other refs are as before. */
  lemma AddRefs(rank: Hash -> nat, s: State, refs: seq<Ref>, r: Ref)
    requires Apart(refs) && forall q | q in refs :: q.hash in s.graph
    ensures var t := Added(rank, s, GerritMutation([], [], refs));
            && (r in refs ==> !NeedsFetch(t, r))
            && (r.name !in NamesOf(refs) ==> (NeedsFetch(t, r) <==> NeedsFetch(s, r)))
  {
    assert Pieces(GerritMutation([], [], refs)) == PointActions(refs);
    PointingSettles(rank, s, refs, r);
  }

  /** Logging refs adds no other names. */
  lemma {:induction false} PointingNames(rank: Hash -> nat, s: State, refs: seq<Ref>, n: string)
    requires n in Exec(rank, s, PointActions(refs)).ref
    ensures n in s.ref || PlainRef(n) in NamesOf(refs)
  {
    if refs != [] {
      PointMore(rank, s, refs);
      var init, last := refs[..|refs| - 1], refs[|refs| - 1];
      assert last in refs && forall r | r in init :: r in refs;
      if n in Exec(rank, s, PointActions(init)).ref {
        PointingNames(rank, s, init, n);
      }
    }
  }

  lemma AddedNames(rank: Hash -> nat, s: State, refs: seq<Ref>)
    ensures forall n | n in Added(rank, s, GerritMutation([], [], refs)).ref :: n in s.ref || PlainRef(n) in NamesOf(refs)
  {
    assert Pieces(GerritMutation([], [], refs)) == PointActions(refs);
    forall n | n in Added(rank, s, GerritMutation([], [], refs)).ref ensures n in s.ref || PlainRef(n) in NamesOf(refs) {
      PointingNames(rank, s, refs, n);
    }
  }
}
