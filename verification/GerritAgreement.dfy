/** Exactly when leader and follower agree, on logs whose meta branches may be replaced. */
module GerritAgreement {
  import opened Basics
  import opened Git
  import opened GerritSpec
  import opened GerritReplay

  // ---- Exactly when leader and follower agree ----

  /** The last meta ref for CL n. */
  function LastMeta(refs: seq<Ref>, n: int): Option<Hash> {
    if refs == [] then None
    else
      var r := refs[|refs| - 1];
      if r.name == ChangeRef(n, 0) then Some(r.hash) else LastMeta(refs[..|refs| - 1], n)
  }

  /** Where each mutation of the log that moves the meta branch of CL n leaves it. */
  function HeadsLogged(log: seq<Mutation>, n: int): seq<Hash> {
    if log == [] then []
    else
      var m := log[|log| - 1];
      var h := if m.GerritMutation? then LastMeta(m.refs, n) else None;
      HeadsLogged(log[..|log| - 1], n) + if h.Some? then [h.value] else []
  }

  lemma {:induction false} TrackAppend(t: Track, a: seq<Action>, b: seq<Action>, n: int)
    ensures TrackFrom(t, a + b, n) == TrackFrom(TrackFrom(t, a, n), b, n)
  {
    if b == [] {
      assert a + b == a;
    } else {
      TrackAppend(t, a, b[..|b| - 1], n);
      assert (a + b)[..|a + b| - 1] == a + b[..|b| - 1];
    }
  }

  lemma {:induction false} TrackIdle(t: Track, actions: seq<Action>, n: int)
    requires forall a | a in actions :: !a.Point? && !a.Finish?
    ensures TrackFrom(t, actions, n) == t
  {
    if actions != [] {
      TrackIdle(t, actions[..|actions| - 1], n);
      assert actions[|actions| - 1] in actions;
    }
  }

  lemma {:induction false} TrackPoints(t: Track, refs: seq<Ref>, n: int)
    ensures var h := LastMeta(refs, n);
            TrackFrom(t, PointActions(refs), n) == if h.Some? then t.(head := h, isDirty := true) else t
  {
    if refs != [] {
      var init := refs[..|refs| - 1];
      TrackPoints(t, init, n);
      assert PointActions(refs)[..|PointActions(init)|] == PointActions(init);
    }
  }

  lemma TrackPieces(t: Track, m: Mutation, n: int)
    ensures var h := if m.GerritMutation? then LastMeta(m.refs, n) else None;
            TrackFrom(t, Pieces(m), n) == if h.Some? then t.(head := h, isDirty := true) else t
  {
    match m
    case GitMutation(p) =>
      assert [FileForeign(p)][..0] == [];
    case GerritMutation(commits, deletedRefs, refs) =>
      var front := FileActions(commits) + DeleteActions(deletedRefs);
      ActionsOf(commits, deletedRefs, refs);
      TrackIdle(t, front, n);
      TrackAppend(t, front, PointActions(refs), n);
      TrackPoints(t, refs, n);
  }

  /** The leader cleans up every head where a mutation leaves a branch. */
  lemma {:induction false} LeaderTrack(log: seq<Mutation>, n: int)
    ensures var t := TrackOf(LeaderActions(log), n); t.cleaned == HeadsLogged(log, n) && !t.isDirty
  {
    if log != [] {
      var before, m := log[..|log| - 1], log[|log| - 1];
      LeaderTrack(before, n);
      TrackAppend(NO_TRACK, LeaderActions(before), Pieces(m), n);
      TrackPieces(TrackOf(LeaderActions(before), n), m, n);
      TrackStep(LeaderActions(before) + Pieces(m), Finish, n);
    }
  }

  lemma {:induction false} NothingCleaned(actions: seq<Action>, n: int)
    requires Finish !in actions
    ensures TrackOf(actions, n).cleaned == []
  {
    if actions != [] {
      NothingCleaned(actions[..|actions| - 1], n);
    }
  }

  /** A follower cleans up a branch once. */
  lemma FollowerIsUpToDate(w: World, log: seq<Mutation>)
    requires w.Valid() && Backed(w, FollowerActions(log))
    ensures UpToDate(w, Exec(w.rank, EMPTY_STATE, FollowerActions(log)))
  {
    forall n ensures LastTellsAll(w, TrackOf(FollowerActions(log), n).cleaned) {
      LeaderPieces(log);
      NothingCleaned(LogActions(log), n);
      TrackStep(LogActions(log), Finish, n);
      OneTellsAll(w, TrackOf(FollowerActions(log), n).cleaned);
    }
    FixupsAgreeExactly(w, FollowerActions(log));
  }

  lemma OneTellsAll(w: World, hs: seq<Hash>)
    requires w.Valid() && |hs| <= 1
    ensures LastTellsAll(w, hs)
  {
    if hs != [] {
      assert hs[..|hs| - 1] == [];
    }
  }

  /** For every CL the last of the heads where mutations leave its branch tells all that the earlier ones do. */
  ghost predicate LogTellsAll(w: World, log: seq<Mutation>)
    requires w.Valid()
  {
    forall n :: LastTellsAll(w, HeadsLogged(log, n))
  }

  lemma LeaderTellsAll(w: World, log: seq<Mutation>)
    requires w.Valid()
    ensures RunTellsAll(w, LeaderActions(log)) <==> LogTellsAll(w, log)
  {
    forall n ensures TrackOf(LeaderActions(log), n).cleaned == HeadsLogged(log, n) {
      LeaderTrack(log, n);
    }
    if RunTellsAll(w, LeaderActions(log)) {
      forall n ensures LastTellsAll(w, HeadsLogged(log, n)) {
        assert LastTellsAll(w, TrackOf(LeaderActions(log), n).cleaned);
      }
    }
  }

  lemma LeaderIsUpToDateExactly(w: World, log: seq<Mutation>)
    requires w.Valid() && Backed(w, LeaderActions(log)) && log != []
    ensures UpToDate(w, Exec(w.rank, EMPTY_STATE, LeaderActions(log))) <==> LogTellsAll(w, log)
  {
    LeaderPieces(log);
    FixupsAgreeExactly(w, LeaderActions(log));
    LeaderTellsAll(w, log);
  }

  /**
   On every log whose meta refs point at logged, linear histories, leader and follower agree if and only if the last
   head of every CL tells all.
   */
  lemma LeaderFollowerAgreeExactly(w: World, log: seq<Mutation>)
    requires w.Valid() && Backed(w, LogActions(log))
    ensures Exec(w.rank, EMPTY_STATE, LeaderActions(log)) == Exec(w.rank, EMPTY_STATE, FollowerActions(log)) <==>
              LogTellsAll(w, log)
  {
    if log == [] {
      LeaderFollowerAgree(w, log);
    } else {
      LeaderPieces(log);
      FollowerPieces(log);
      BackedIgnoresFinish(w, LeaderActions(log));
      BackedIgnoresFinish(w, FollowerActions(log));
      LeaderIsUpToDateExactly(w, log);
      FollowerIsUpToDate(w, log);
      if UpToDate(w, Exec(w.rank, EMPTY_STATE, LeaderActions(log))) {
        SameWhenUpToDate(w, LeaderActions(log), FollowerActions(log));
      }
    }
  }

  // ---- A branch that is replaced ----

  /** A repository with two meta commits, 1 and 2, neither above the other. */
  function TwoHeads(first: Note, second: Note): World {
    World(h => Record([], None, if h == 1 then first else second), _ => 0)
  }

  function Head(h: Hash, note: Note): Mutation {
    GerritMutation([CommitProto(true, h, [], note)], [], [Ref(ChangeRef(1, 0), h)])
  }

  /** The meta branch of CL 1 is at commit 1, and then at commit 2. */
  function ReplacingLog(first: Note, second: Note): seq<Mutation> {
    [Head(1, first), Head(2, second)]
  }

  function HeadCommit(h: Hash, note: Note): CommitProto {
    CommitProto(true, h, [], note)
  }

  lemma HeadPieces(h: Hash, note: Note)
    ensures Pieces(Head(h, note)) == [FileIt(HeadCommit(h, note)), Point(Ref(ChangeRef(1, 0), h))]
  {
    var c, r := HeadCommit(h, note), Ref(ChangeRef(1, 0), h);
    assert [c][..0] == [] && [r][..0] == [];
    assert FileActions([c]) == FileActions([]) + [FileIt(c)];
    assert PointActions([r]) == PointActions([]) + [Point(r)];
  }

  lemma HeadIsBacked(w: World, before: seq<Action>, h: Hash, note: Note)
    requires w.Valid() && Backed(w, before) && w.content(h) == Record([], None, note)
    ensures Backed(w, before + Pieces(Head(h, note)))
  {
    var c := HeadCommit(h, note);
    var a, b := FileIt(c), Point(Ref(ChangeRef(1, 0), h));
    HeadPieces(h, note);
    var filed := before + [a];
    assert filed[..|before|] == before;
    FiledMore(before, a);
    assert Addressed(w, a) && Backed(w, filed);
    assert forall x :: IsAncestor(w, x, h) <==> x == h;
    assert MayCome(w, filed, b);
    var all := filed + [b];
    assert all == before + Pieces(Head(h, note)) && all[..|filed|] == filed;
  }

  lemma ReplacingLogIsBacked(first: Note, second: Note)
    ensures var w := TwoHeads(first, second); w.Valid() && Backed(w, LogActions(ReplacingLog(first, second)))
  {
    var w, log := TwoHeads(first, second), ReplacingLog(first, second);
    assert log[..1] == [Head(1, first)] && [Head(1, first)][..0] == [];
    HeadIsBacked(w, [], 1, first);
    var acts := LogActions([Head(1, first)]);
    assert LogActions([Head(1, first)][..0]) == [];
    assert acts == [] + Pieces(Head(1, first));
    HeadIsBacked(w, acts, 2, second);
    assert LogActions(log) == acts + Pieces(Head(2, second));
  }

  lemma ReplacingHeads(first: Note, second: Note, n: int)
    ensures HeadsLogged(ReplacingLog(first, second), n) == if n == 1 then [1, 2] else []
  {
    var log := ReplacingLog(first, second);
    assert log[..1] == [Head(1, first)] && [Head(1, first)][..0] == [];
    var r, q := Ref(ChangeRef(1, 0), 1), Ref(ChangeRef(1, 0), 2);
    assert [r][..0] == [] && [q][..0] == [];
    assert LastMeta([r], n) == if n == 1 then Some(1) else LastMeta([], n);
    assert LastMeta([q], n) == if n == 1 then Some(2) else LastMeta([], n);
    assert HeadsLogged([Head(1, first)], n) == HeadsLogged([], n) + if n == 1 then [1] else [];
  }

  /**
   Replacing a head by an unrelated one: leader and follower agree if and only if the new one is private if the old one
   was, names a status unless the old one named none or "new", and names a branch unless the old one named none. A
   private head replaced by EMPTY_NOTE is an instance where they differ, and so is an abandoned one, and one with a branch.
   */
  lemma ReplacedBranch(first: Note, second: Note)
    ensures var w, log := TwoHeads(first, second), ReplacingLog(first, second);
            && w.Valid()
            && (Exec(w.rank, EMPTY_STATE, LeaderActions(log)) == Exec(w.rank, EMPTY_STATE, FollowerActions(log)) <==>
                && (first.isPrivate ==> second.isPrivate)
                && (second.status != "" || first.status in ["", "new"])
                && (second.branch.Some? || first.branch in [None, Some("")]))
  {
    var w, log := TwoHeads(first, second), ReplacingLog(first, second);
    ReplacingLogIsBacked(first, second);
    LeaderFollowerAgreeExactly(w, log);
    TwoTellAll(w);
    assert LogTellsAll(w, log) <==> LastTellsAll(w, [1, 2]) by {
      forall n ensures HeadsLogged(log, n) == if n == 1 then [1, 2] else [] {
        ReplacingHeads(first, second, n);
      }
      if LogTellsAll(w, log) {
        assert LastTellsAll(w, HeadsLogged(log, 1));
      }
    }
  }

  /** Three logs on which leader and follower differ. */
  lemma ReplacedHeadsDiffer(first: Note)
    requires first in [EMPTY_NOTE.(isPrivate := true), EMPTY_NOTE.(status := "abandoned"), EMPTY_NOTE.(branch := Some("dev"))]
    ensures var w, log := TwoHeads(first, EMPTY_NOTE), ReplacingLog(first, EMPTY_NOTE);
            Exec(w.rank, EMPTY_STATE, LeaderActions(log)) != Exec(w.rank, EMPTY_STATE, FollowerActions(log))
  {
    ReplacedBranch(first, EMPTY_NOTE);
  }

  lemma TwoTellAll(w: World)
    requires w.Valid() && w.content(1).parents == [] && w.content(2).parents == []
    ensures var first, second := w.content(1).note, w.content(2).note;
            LastTellsAll(w, [1, 2]) <==>
              && (first.isPrivate ==> second.isPrivate)
              && (second.status != "" || first.status in ["", "new"])
              && (second.branch.Some? || first.branch in [None, Some("")])
  {
    var hs: seq<Hash> := [1, 2];
    assert hs[..1] == [1] && hs[1] == 2;
    OneEntry(w, 1);
    OneEntry(w, 2);
    EverPrivateStep(w, [1]);
    assert [1][..0] == [];
    assert NamedStatus(w, [1]) == FirstStatus(History(w, 1));
    assert NamedBranch(w, [1]) == FirstBranch(History(w, 1));
  }

  lemma OneEntry(w: World, h: Hash)
    requires w.Valid() && w.content(h).parents == []
    ensures var es, note := History(w, h), w.content(h).note;
            AnyPrivate(es) == note.isPrivate && FirstStatus(es) == note.status && FirstBranch(es) == note.branch
  {
    var e := Entry(h, w.content(h));
    assert History(w, h) == [e] && [e][1..] == [];
    assert e in [e];
  }
}
