/** When indexing the commits that are asked for ends, and with what (syncCommits in maintner/gerrit.go). */
module Indexing {
  import opened Basics
  import opened Git
  import opened GerritSpec
  import opened GerritReplay
  import opened GerritLog

  /** A git directory: what parseCommitFromGit produces for each name. */
  type Dir = map<Hash, CommitProto>

  /** Commits have the names they are filed under; those that parse have the content of their name. */
  ghost predicate Faithful(w: World, git: Dir) {
    forall h | h in git :: git[h].sha1 == h && (Parses(git[h]) ==> RecordOf(git[h]) == w.content(h))
  }

  /** The commits of git that parse. */
  ghost function Usable(git: Dir): iset<Hash> {
    iset h | h in git && Parses(git[h])
  }

  /** The commits that are indexed. */
  ghost function KnownSet(s: State): iset<Hash> {
    iset h | h in s.commit
  }

  // ---- Histories ----

  ghost predicate IsAbove(w: World, hs: set<Hash>, a: Hash)
    requires w.Valid()
  {
    exists h :: h in hs && IsAncestor(w, a, h)
  }

  /** The commits from those of hs down to the roots. */
  ghost function Above(w: World, hs: set<Hash>): iset<Hash>
    requires w.Valid()
  {
    iset a | IsAbove(w, hs, a)
  }

  lemma AboveGrows(w: World, hs: set<Hash>, more: set<Hash>)
    requires w.Valid()
    ensures Above(w, hs + more) == Above(w, hs) + Above(w, more)
  {
    forall a ensures a in Above(w, hs + more) <==> a in Above(w, hs) + Above(w, more) {
      if a in Above(w, hs) + Above(w, more) {
        var h :| (h in hs || h in more) && IsAncestor(w, a, h);
        assert h in hs + more;
      }
    }
  }

  lemma AboveTrans(w: World, hs: set<Hash>, q: Hash, a: Hash)
    requires w.Valid() && q in Above(w, hs) && IsAncestor(w, a, q)
    ensures a in Above(w, hs)
  {
    var h :| h in hs && IsAncestor(w, q, h);
    AncestorTrans(w, a, q, h);
  }

  /** Every commit from h down to the roots is to be had. */
  ghost predicate Whole(w: World, have: iset<Hash>, h: Hash)
    requires w.Valid()
  {
    forall a | IsAncestor(w, a, h) :: a in have
  }

  ghost predicate AllWhole(w: World, have: iset<Hash>, hs: set<Hash>)
    requires w.Valid()
  {
    forall h | h in hs :: Whole(w, have, h)
  }

  lemma StillWhole(w: World, have: iset<Hash>, need: set<Hash>, h: Hash)
    requires w.Valid() && AllWhole(w, have, need) && h in need
    ensures AllWhole(w, have, need + set q | q in w.content(h).parents)
  {
    forall q, a | q in w.content(h).parents && IsAncestor(w, a, q) ensures a in have {
      assert IsAncestor(w, a, h);
    }
  }

  /** When nothing is asked for, every known commit is whole. */
  lemma KnownIsWhole(w: World, s: State, have: iset<Hash>, h: Hash)
    requires w.Valid() && Consistent(w, s) && Worklist(s) && s.need == {} && (forall a | a in s.commit :: a in have) && h in s.commit
    ensures Whole(w, have, h)
  {
    forall a | IsAncestor(w, a, h) ensures a in have {
      KnownHistoryIsLogged(w, s, h, a);
    }
  }

  /** A git directory whose commits all parse, with their parents. */
  predicate Complete(git: Dir) {
    forall h | h in git :: Parses(git[h]) && forall q | q in RecordOf(git[h]).parents :: q in git
  }

  lemma {:induction false} CompleteHas(w: World, git: Dir, h: Hash, a: Hash)
    requires w.Valid() && Faithful(w, git) && Complete(git) && h in git && IsAncestor(w, a, h)
    ensures a in git
    decreases w.rank(h)
  {
    if a != h {
      var q :| q in w.content(h).parents && IsAncestor(w, a, q);
      CompleteHas(w, git, q, a);
    }
  }

  /** In a complete directory every commit is whole. */
  lemma CompleteIsWhole(w: World, git: Dir, have: iset<Hash>, hs: set<Hash>)
    requires w.Valid() && Faithful(w, git) && Complete(git) && (forall a | a in git :: a in have) && hs <= git.Keys
    ensures AllWhole(w, have, hs)
  {
    forall h, a | h in hs && IsAncestor(w, a, h) ensures a in have {
      CompleteHas(w, git, h, a);
    }
  }

  // ---- One turn ----

  function OneCommit(p: CommitProto): Mutation {
    GerritMutation([p], [], [])
  }

  /** One turn of syncCommits: a commit that is asked for is logged and processed. */
  ghost function Turn(w: World, git: Dir, s: State, h: Hash): State
    requires h in git
  {
    Added(w.rank, s, OneCommit(git[h]))
  }

  /** A commit that does not parse is still asked for after it was logged, so indexing it makes no headway. */
  lemma UnparsedIsAskedAgain(rank: Hash -> nat, s: State, p: CommitProto)
    requires !Parses(p)
    ensures var t := Added(rank, s, OneCommit(p));
            t.commit == s.commit && t.need == s.need && t.remote == s.remote && t.ref == s.ref
  {
    assert [p][..0] == [] && Pieces(OneCommit(p)) == [FileIt(p)] == FileActions([p]);
    FileMore(rank, s, [p]);
  }

  predicate SameRefMaps(s: State, t: State) {
    s.remote == t.remote && s.ref == t.ref
  }

  /** What a turn does to the known commits and to those asked for. */
  ghost predicate Turned(w: World, s: State, h: Hash, parses: bool, t: State) {
    && SameRefMaps(s, t)
    && if parses then
         && t.commit.Keys == s.commit.Keys + {h}
         && t.need == s.need - {h} + (set q | q in w.content(h).parents && q !in t.commit)
       else t.commit == s.commit && t.need == s.need
  }

  lemma TurnIs(w: World, git: Dir, s: State, h: Hash)
    requires Faithful(w, git) && Worklist(s) && h in s.need && h in git
    ensures Turned(w, s, h, Parses(git[h]), Turn(w, git, s, h))
  {
    if Parses(git[h]) {
      AddOneCommit(w.rank, s, git[h]);
    } else {
      UnparsedIsAskedAgain(w.rank, s, git[h]);
    }
  }

  lemma TurnKeepsWorklist(w: World, git: Dir, s: State, h: Hash)
    requires Worklist(s) && h in git
    ensures Worklist(Turn(w, git, s, h))
  {
    RunKeepsWorklist(w.rank, s, Pieces(OneCommit(git[h])));
    DoKeepsWorklist(w.rank, Exec(w.rank, s, Pieces(OneCommit(git[h]))), Finish);
  }

  // ---- When indexing ends ----

  /** A run of syncCommits from s: each turn is on a commit that is asked for then, and that git has. */
  ghost predicate IsRun(w: World, git: Dir, s: State, run: seq<Hash>)
    decreases |run|
  {
    run == [] || (run[0] in s.need && run[0] in git && IsRun(w, git, Turn(w, git, s, run[0]), run[1..]))
  }

  /** There is a run of n turns. */
  ghost predicate CanGoOn(w: World, git: Dir, s: State, n: nat) {
    exists run :: |run| == n && IsRun(w, git, s, run)
  }

  /** h is unknown, and a commit that does not parse is h or is reached from h through unknown commits of git. */
  ghost predicate Snags(w: World, git: Dir, known: iset<Hash>, h: Hash)
    requires w.Valid() && Faithful(w, git)
    decreases w.rank(h)
  {
    && h in git && h !in known
    && (!Parses(git[h]) || exists q | q in w.content(h).parents :: Snags(w, git, known, q))
  }

  ghost predicate Snagged(w: World, git: Dir, known: iset<Hash>, hs: set<Hash>)
    requires w.Valid() && Faithful(w, git)
  {
    exists h :: h in hs && Snags(w, git, known, h)
  }

  /** Something that is asked for snags. */
  ghost predicate Doomed(w: World, git: Dir, s: State)
    requires w.Valid() && Faithful(w, git)
  {
    Snagged(w, git, KnownSet(s), s.need)
  }

  /** Learning h takes nothing away from the snags below it. */
  lemma {:induction false} SnagsBelow(w: World, git: Dir, known: iset<Hash>, h: Hash, q: Hash)
    requires w.Valid() && Faithful(w, git) && w.rank(q) < w.rank(h) && Snags(w, git, known, q)
    ensures Snags(w, git, known + iset{h}, q)
    decreases w.rank(q)
  {
    if Parses(git[q]) {
      var r :| r in w.content(q).parents && Snags(w, git, known, r);
      SnagsBelow(w, git, known, h, r);
    }
  }

  /** With less known, no less snags. */
  lemma {:induction false} SnagsMore(w: World, git: Dir, known: iset<Hash>, less: iset<Hash>, q: Hash)
    requires w.Valid() && Faithful(w, git) && less <= known && Snags(w, git, known, q)
    ensures Snags(w, git, less, q)
    decreases w.rank(q)
  {
    if Parses(git[q]) {
      var r :| r in w.content(q).parents && Snags(w, git, known, r);
      SnagsMore(w, git, known, less, r);
    }
  }

  lemma {:induction false} SnagsAreNotWhole(w: World, git: Dir, known: iset<Hash>, h: Hash)
    requires w.Valid() && Faithful(w, git) && Snags(w, git, known, h)
    ensures !Whole(w, Usable(git) + known, h)
    decreases w.rank(h)
  {
    assert IsAncestor(w, h, h);
    if Parses(git[h]) {
      var q :| q in w.content(h).parents && Snags(w, git, known, q);
      SnagsAreNotWhole(w, git, known, q);
      var a :| IsAncestor(w, a, q) && a !in Usable(git) + known;
      assert IsAncestor(w, a, h);
    }
  }

  /** What snags cannot be indexed. */
  lemma SnaggedIsNotWhole(w: World, git: Dir, known: iset<Hash>, hs: set<Hash>)
    requires w.Valid() && Faithful(w, git) && Snagged(w, git, known, hs)
    ensures !AllWhole(w, Usable(git) + known, hs)
  {
    var h :| h in hs && Snags(w, git, known, h);
    SnagsAreNotWhole(w, git, known, h);
  }

  /** A turn on a commit that parses moves what snags to its parents. */
  lemma SnagMovesOn(w: World, git: Dir, s: State, h: Hash, t: State)
    requires w.Valid() && Faithful(w, git) && Snags(w, git, KnownSet(s), h) && Parses(git[h]) && Turned(w, s, h, true, t)
    ensures Doomed(w, git, t)
  {
    var q :| q in w.content(h).parents && Snags(w, git, KnownSet(s), q);
    SnagsBelow(w, git, KnownSet(s), h, q);
    assert KnownSet(t) == KnownSet(s) + iset{h};
    assert q in t.need;
  }

  /** Some turn leaves what is doomed doomed. */
  lemma DoomedGoesOn(w: World, git: Dir, s: State) returns (h: Hash)
    requires w.Valid() && Faithful(w, git) && Worklist(s) && Doomed(w, git, s)
    ensures h in s.need && h in git && Worklist(Turn(w, git, s, h)) && Doomed(w, git, Turn(w, git, s, h))
  {
    h :| h in s.need && Snags(w, git, KnownSet(s), h);
    TurnIs(w, git, s, h);
    TurnKeepsWorklist(w, git, s, h);
    if Parses(git[h]) {
      SnagMovesOn(w, git, s, h, Turn(w, git, s, h));
    }
  }

  lemma {:induction false} DoomedNeverEnds(w: World, git: Dir, s: State, n: nat) returns (run: seq<Hash>)
    requires w.Valid() && Faithful(w, git) && Worklist(s) && Doomed(w, git, s)
    ensures |run| == n && IsRun(w, git, s, run)
    decreases n
  {
    run := [];
    if n > 0 {
      var h := DoomedGoesOn(w, git, s);
      var rest := DoomedNeverEnds(w, git, Turn(w, git, s, h), n - 1);
      run := [h] + rest;
      assert run[1..] == rest;
    }
  }

  /** A turn on a commit that parses dooms nothing. */
  lemma TurnDoomsNothing(w: World, git: Dir, s: State, h: Hash)
    requires w.Valid() && Faithful(w, git) && Worklist(s) && h in s.need && h in git && Parses(git[h])
    ensures Doomed(w, git, Turn(w, git, s, h)) ==> Doomed(w, git, s)
  {
    var t := Turn(w, git, s, h);
    TurnIs(w, git, s, h);
    if q :| q in t.need && Snags(w, git, KnownSet(t), q) {
      SnagsMore(w, git, KnownSet(t), KnownSet(s), q);
      if q !in s.need {
        assert q in w.content(h).parents && Snags(w, git, KnownSet(s), h);
      }
    }
  }

  /** Every turn of what is not doomed indexes one more commit, and dooms nothing. */
  lemma TurnsCount(w: World, git: Dir, s: State, h: Hash)
    requires w.Valid() && Faithful(w, git) && Worklist(s) && !Doomed(w, git, s) && h in s.need && h in git
    ensures var t := Turn(w, git, s, h);
            && Parses(git[h]) && Worklist(t) && !Doomed(w, git, t)
            && |git.Keys - t.commit.Keys| + 1 == |git.Keys - s.commit.Keys|
  {
    assert Parses(git[h]) by {
      assert !Snags(w, git, KnownSet(s), h);
    }
    TurnIs(w, git, s, h);
    TurnKeepsWorklist(w, git, s, h);
    TurnDoomsNothing(w, git, s, h);
    OneLess(w, git, s, h, Turn(w, git, s, h));
  }

  lemma OneLess(w: World, git: Dir, s: State, h: Hash, t: State)
    requires h in git && h !in s.commit && Turned(w, s, h, true, t)
    ensures |git.Keys - t.commit.Keys| + 1 == |git.Keys - s.commit.Keys|
  {
    assert git.Keys - s.commit.Keys == (git.Keys - t.commit.Keys) + {h};
  }

  lemma {:induction false} OthersEnd(w: World, git: Dir, s: State, run: seq<Hash>)
    requires w.Valid() && Faithful(w, git) && Worklist(s) && !Doomed(w, git, s) && IsRun(w, git, s, run)
    ensures |run| <= |git.Keys - s.commit.Keys|
    decreases |run|
  {
    if run != [] {
      TurnsCount(w, git, s, run[0]);
      OthersEnd(w, git, Turn(w, git, s, run[0]), run[1..]);
    }
  }

  /**
   syncCommits may go on for ever if and only if a commit of git that does not parse is asked for, or is reached from
   one that is through unknown commits of git. Otherwise it takes at most a turn for each unknown commit of git.
   */
  lemma EndsExactly(w: World, git: Dir, s: State)
    requires w.Valid() && Faithful(w, git) && Worklist(s)
    ensures (forall n: nat :: CanGoOn(w, git, s, n)) <==> Doomed(w, git, s)
    ensures !Doomed(w, git, s) ==> forall n: nat :: CanGoOn(w, git, s, n) ==> n <= |git.Keys - s.commit.Keys|
  {
    if Doomed(w, git, s) {
      forall n: nat ensures CanGoOn(w, git, s, n) {
        var run := DoomedNeverEnds(w, git, s, n);
      }
    } else {
      forall n: nat | CanGoOn(w, git, s, n) ensures n <= |git.Keys - s.commit.Keys| {
        var run :| |run| == n && IsRun(w, git, s, run);
        OthersEnd(w, git, s, run);
      }
      assert !CanGoOn(w, git, s, |git.Keys - s.commit.Keys| + 1);
    }
  }
}
