/** What runs of a Gerrit project keep between its maps, and what the pieces of a mutation come to (maintner/gerrit.go). */
module GerritLaws {
  import opened Basics
  import opened Git
  import opened GerritSpec
  import opened GerritReplay
  import opened GerritLog

  // ---- CLs and refs ----

  /** The CL of that number points where the remote's refs do: its meta ref, and one of its patch sets. */
  ghost predicate CLAgrees(s: State, n: int) {
    && (n in s.cls <==> exists v :: (n, v) in s.remote)
    && (n in s.cls ==> PointsRight(s.remote, s.cls[n], n))
  }

  ghost predicate PointsRight(remote: map<(int, int), Hash>, cl: CL, n: int) {
    && cl.meta == (if (n, 0) in remote then Some(remote[(n, 0)]) else None)
    && (cl.commit.Some? ==> cl.version != 0 && (n, cl.version) in remote && remote[(n, cl.version)] == cl.commit.value)
    && (cl.commit.None? ==> cl.version == 0 && forall v :: (n, v) in remote ==> v == 0)
  }

  ghost predicate RefsAgree(s: State) {
    forall n :: CLAgrees(s, n)
  }

  lemma FinishKeepsRefs(rank: Hash -> nat, g: Graph, cl: CL)
    ensures var t := FinishCL(rank, g, cl); t.meta == cl.meta && t.commit == cl.commit && t.version == cl.version
  {
  }

  /** A ref to a name that the corpus has never heard of does nothing, nor does one that is no ref of the project. */
  lemma StrayRefIsIgnored(s: State, r: Ref)
    requires r.hash !in s.graph || r.name.BadChangeRef? || r.name.ConfigRef?
    ensures SetRef(s, r) == s
  {
  }

  /** A ref to a patch set moves the CL's commit and version to it, a meta ref its meta; nothing else of the CL moves. */
  lemma RefMovesCL(s: State, n: int, v: int, h: Hash)
    requires h in s.graph
    ensures var t := SetRef(s, Ref(ChangeRef(n, v), h));
            && t.remote == s.remote[(n, v) := h] && t.cls.Keys == s.cls.Keys + {n}
            && (forall k | k in s.cls && k != n :: t.cls[k] == s.cls[k])
            && (v != 0 ==> t.cls[n].commit == Some(h) && t.cls[n].version == v && t.dirty == s.dirty)
            && (v == 0 ==> t.cls[n].meta == Some(h) && t.dirty == s.dirty + {n})
            && (n !in s.cls ==>
                  t.cls[n] == if v == 0 then CL(Some(h), None, 0, [], [], "", "", ZERO_TIME, false)
                              else CL(None, Some(h), v, [], [], "", "", ZERO_TIME, false))
            && (n in s.cls && v != 0 ==> t.cls[n].(commit := s.cls[n].commit, version := s.cls[n].version) == s.cls[n])
            && (n in s.cls && v == 0 ==> t.cls[n].(meta := s.cls[n].meta) == s.cls[n])
  {
  }

  lemma PointKeepsRefs(s: State, r: Ref, n: int)
    requires CLAgrees(s, n)
    ensures CLAgrees(SetRef(s, r), n)
  {
    var t := SetRef(s, r);
    if r.hash in s.graph && r.name.ChangeRef? && r.name.number == n {
      RefMovesCL(s, n, r.name.version, r.hash);
      assert (n, r.name.version) in t.remote;
      assert forall v :: (n, v) in t.remote <==> (n, v) in s.remote || v == r.name.version;
    }
  }

  lemma DoKeepsRefs(rank: Hash -> nat, s: State, a: Action)
    requires RefsAgree(s)
    ensures RefsAgree(Do(rank, s, a))
  {
    var t := Do(rank, s, a);
    forall n ensures CLAgrees(t, n) {
      assert CLAgrees(s, n);
      if a.Point? {
        PointKeepsRefs(s, a.ref, n);
      } else if a.Finish? && n in s.cls {
        FinishKeepsRefs(rank, s.graph, s.cls[n]);
      }
    }
  }

  /** In every run there is a CL exactly for every number with a change ref, and it points where the refs do. */
  lemma {:induction false} RunKeepsRefs(rank: Hash -> nat, actions: seq<Action>)
    ensures RefsAgree(Exec(rank, EMPTY_STATE, actions))
  {
    if actions != [] {
      RunKeepsRefs(rank, actions[..|actions| - 1]);
      DoKeepsRefs(rank, Exec(rank, EMPTY_STATE, actions[..|actions| - 1]), actions[|actions| - 1]);
    }
  }

  // ---- The order of the pieces ----

  /** The commits of a mutation are filed before its refs: a ref to one of them counts, even if the mutation deletes it too. */
  lemma RefsComeLast(rank: Hash -> nat, s: State, commits: seq<CommitProto>, deleted: seq<string>, refs: seq<Ref>, name: string, h: Hash)
    requires h in ParsedNames(commits)
    ensures var t := Exec(rank, s, Pieces(GerritMutation(commits, deleted, refs + [Ref(PlainRef(name), h)])));
            name in t.ref && t.ref[name] == h
  {
    var all := refs + [Ref(PlainRef(name), h)];
    var a, b := FileActions(commits), DeleteActions(deleted);
    ExecAppend(rank, s, a, b);
    ExecAppend(rank, s, a + b, PointActions(all));
    var mid := Exec(rank, s, a + b);
    DeletingForgets(rank, Exec(rank, s, a), deleted);
    FiledIsEntered(rank, s, commits, h);
    assert all[..|all| - 1] == refs;
    PointMore(rank, mid, all);
    PointKeepsGraph(rank, mid, refs);
  }

  lemma {:induction false} PointKeepsGraph(rank: Hash -> nat, s: State, refs: seq<Ref>)
    ensures Exec(rank, s, PointActions(refs)).graph == s.graph
  {
    if refs != [] {
      PointMore(rank, s, refs);
      PointKeepsGraph(rank, s, refs[..|refs| - 1]);
    }
  }

  lemma {:induction false} FiledIsEntered(rank: Hash -> nat, s: State, commits: seq<CommitProto>, h: Hash)
    requires h in s.graph || h in ParsedNames(commits)
    ensures h in Exec(rank, s, FileActions(commits)).graph
  {
    if commits != [] {
      FileMore(rank, s, commits);
      var init, last := commits[..|commits| - 1], commits[|commits| - 1];
      ParsedMore(commits, h);
      if h in s.graph || h in ParsedNames(init) {
        FiledIsEntered(rank, s, init, h);
      }
      FileEnters(Exec(rank, s, FileActions(init)), last, h);
    }
  }

  lemma ParsedMore(commits: seq<CommitProto>, h: Hash)
    requires commits != []
    ensures var init, last := commits[..|commits| - 1], commits[|commits| - 1];
            h in ParsedNames(commits) <==> h in ParsedNames(init) || (Parses(last) && h == last.sha1)
  {
    var init, last := commits[..|commits| - 1], commits[|commits| - 1];
    assert commits == init + [last];
    assert forall p :: p in commits <==> p in init || p == last;
  }

  lemma FileEnters(s: State, p: CommitProto, h: Hash)
    ensures h in s.graph || (Parses(p) && h == p.sha1) ==> h in FileCommit(s, p).graph
  {
  }

  /** A deleted ref that the mutation does not set is gone. */
  lemma DeletedIsGone(rank: Hash -> nat, s: State, commits: seq<CommitProto>, deleted: seq<string>, refs: seq<Ref>, name: string)
    requires name in deleted && PlainRef(name) !in NamesOf(refs)
    ensures name !in Exec(rank, s, Pieces(GerritMutation(commits, deleted, refs))).ref
  {
    var a, b := FileActions(commits), DeleteActions(deleted);
    ExecAppend(rank, s, a, b);
    ExecAppend(rank, s, a + b, PointActions(refs));
    DeletingForgets(rank, Exec(rank, s, a), deleted);
    var mid := Exec(rank, s, a + b);
    if name in Exec(rank, mid, PointActions(refs)).ref {
      PointingNames(rank, mid, refs, name);
    }
  }
}
