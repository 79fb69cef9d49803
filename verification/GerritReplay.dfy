/** Leader and follower reach the same CLs: laws about GerritSpec.Exec. */
module GerritReplay {
  import opened Basics
  import opened Git
  import opened GerritSpec

  // ---- What a run must respect ----

  /** The names of the commits filed by the run. */
  function Filed(actions: seq<Action>): set<Hash> {
    set a | a in actions && (a.FileIt? || a.FileForeign?) && Parses(a.commit) :: a.commit.sha1
  }

  predicate IsMeta(a: Action) {
    a.Point? && a.ref.name.ChangeRef? && a.ref.name.version == 0
  }

  /** No commit from h down to the roots is a merge. */
  ghost predicate Linear(w: World, h: Hash)
    requires w.Valid()
  {
    forall a | IsAncestor(w, a, h) :: |w.content(a).parents| <= 1
  }

  /** Content addressing, and a meta ref only after the whole linear history it points at. */
  ghost predicate MayCome(w: World, before: seq<Action>, a: Action)
    requires w.Valid()
  {
    && Addressed(w, a)
    && (IsMeta(a) ==> Linear(w, a.ref.hash) && forall x | IsAncestor(w, x, a.ref.hash) :: x in Filed(before))
  }

  ghost predicate Backed(w: World, actions: seq<Action>)
    requires w.Valid()
  {
    actions == [] || (Backed(w, actions[..|actions| - 1]) && MayCome(w, actions[..|actions| - 1], actions[|actions| - 1]))
  }

  /** Besides, a meta branch only grows. */
  ghost predicate MayFollow(w: World, before: seq<Action>, a: Action)
    requires w.Valid()
  {
    && MayCome(w, before, a)
    && (IsMeta(a) ==> forall b | b in before && IsMeta(b) && b.ref.name == a.ref.name :: IsAncestor(w, b.ref.hash, a.ref.hash))
  }

  ghost predicate WellFormed(w: World, actions: seq<Action>)
    requires w.Valid()
  {
    actions == [] ||
    (WellFormed(w, actions[..|actions| - 1]) && MayFollow(w, actions[..|actions| - 1], actions[|actions| - 1]))
  }

  lemma {:induction false} WellFormedIsBacked(w: World, actions: seq<Action>)
    requires w.Valid() && WellFormed(w, actions)
    ensures Backed(w, actions)
  {
    if actions != [] {
      WellFormedIsBacked(w, actions[..|actions| - 1]);
    }
  }

  // ---- What a CL should look like ----

  /** The meta history of h, newest first, read from the repository itself. */
  function History(w: World, h: Hash): (es: seq<Entry>)
    requires w.Valid()
    ensures es != []
    decreases w.rank(h)
  {
    var parents := w.content(h).parents;
    if parents == [] then [Entry(h, w.content(h))]
    else
      assert parents[0] in parents;
      [Entry(h, w.content(h))] + History(w, parents[0])
  }

  /** The CL with everything the clean-up derives forgotten. */
  function Blank(cl: CL): CL {
    NEW_CL.(meta := cl.meta, commit := cl.commit, version := cl.version)
  }

  /** The CL computed from scratch from its refs and the repository. */
  function Recomputed(w: World, cl: CL): CL
    requires w.Valid()
  {
    if cl.meta.None? then Blank(cl) else Derive(History(w, cl.meta.value), Blank(cl))
  }

  /** All of h's history is filled in, and it is linear. */
  ghost predicate KnownHistory(w: World, g: Graph, h: Hash)
    requires w.Valid()
  {
    Linear(w, h) && forall a | IsAncestor(w, a, h) :: a in g && g[a].Filled?
  }

  lemma {:induction false} WalkIsHistory(w: World, g: Graph, h: Hash)
    requires w.Valid() && GraphAgrees(w, g) && KnownHistory(w, g, h)
    ensures h in g && Walk(w.rank, g, h) == (History(w, h), Root)
    decreases w.rank(h)
  {
    assert IsAncestor(w, h, h);
    if w.content(h).parents != [] {
      var q := w.content(h).parents[0];
      assert q in w.content(h).parents;
      forall a | IsAncestor(w, a, q) ensures IsAncestor(w, a, h) {
      }
      WalkIsHistory(w, g, q);
      assert w.content(h).parents == [q];
    }
  }

  /** An older head's history is the tail of a newer head's. */
  lemma {:induction false} HistorySuffix(w: World, a: Hash, h: Hash) returns (newer: seq<Entry>)
    requires w.Valid() && Linear(w, h) && IsAncestor(w, a, h)
    ensures History(w, h) == newer + History(w, a)
    decreases w.rank(h)
  {
    assert IsAncestor(w, h, h);
    if a == h {
      newer := [];
    } else {
      var q :| q in w.content(h).parents && IsAncestor(w, a, q);
      forall b | IsAncestor(w, b, q) ensures IsAncestor(w, b, h) {
      }
      newer := HistorySuffix(w, a, q);
      newer := [Entry(h, w.content(h))] + newer;
    }
  }

  // ---- The heads that clean-ups have seen ----

  /** The meta branch of one CL in a run: its head, whether it has moved since the last clean-up, and the heads cleaned up. */
  datatype Track = Track(head: Option<Hash>, isDirty: bool, cleaned: seq<Hash>)

  const NO_TRACK := Track(None, false, [])

  function NextTrack(t: Track, a: Action, n: int): Track {
    if IsMeta(a) && a.ref.name.number == n then t.(head := Some(a.ref.hash), isDirty := true)
    else if a.Finish? && t.isDirty && t.head.Some? then t.(isDirty := false, cleaned := t.cleaned + [t.head.value])
    else t
  }

  function TrackFrom(t: Track, actions: seq<Action>, n: int): Track {
    if actions == [] then t else NextTrack(TrackFrom(t, actions[..|actions| - 1], n), actions[|actions| - 1], n)
  }

  function TrackOf(actions: seq<Action>, n: int): Track {
    TrackFrom(NO_TRACK, actions, n)
  }

  lemma TrackStep(actions: seq<Action>, a: Action, n: int)
    ensures TrackOf(actions + [a], n) == NextTrack(TrackOf(actions, n), a, n)
  {
    assert (actions + [a])[..|actions|] == actions;
  }

  /** A CL that is not dirty was last cleaned up at its head. */
  ghost predicate Settled(t: Track) {
    && (t.head.None? ==> t == NO_TRACK)
    && (t.head.Some? && !t.isDirty ==> t.cleaned != [] && t.cleaned[|t.cleaned| - 1] == t.head.value)
  }

  lemma {:induction false} TracksSettle(actions: seq<Action>, n: int)
    ensures Settled(TrackOf(actions, n))
  {
    if actions != [] {
      TracksSettle(actions[..|actions| - 1], n);
    }
  }

  /** What clean-ups at the heads hs, one after the other, make of a CL. */
  function DeriveAll(w: World, hs: seq<Hash>, cl: CL): CL
    requires w.Valid()
  {
    if hs == [] then cl else Derive(History(w, hs[|hs| - 1]), DeriveAll(w, hs[..|hs| - 1], cl))
  }

  lemma {:induction false} DeriveAllKeepsRefs(w: World, hs: seq<Hash>, cl: CL, cl': CL)
    requires w.Valid() && cl' == cl.(meta := cl'.meta, commit := cl'.commit, version := cl'.version)
    ensures DeriveAll(w, hs, cl') == DeriveAll(w, hs, cl).(meta := cl'.meta, commit := cl'.commit, version := cl'.version)
  {
    if hs != [] {
      DeriveAllKeepsRefs(w, hs[..|hs| - 1], cl, cl');
    }
  }

  // ---- The invariant of every run ----

  /** The CL is what the clean-ups so far make of it. */
  ghost predicate CLInv(w: World, g: Graph, t: Track, cl: CL)
    requires w.Valid()
  {
    && cl.meta == t.head
    && (t.head.Some? ==> KnownHistory(w, g, t.head.value))
    && cl == DeriveAll(w, t.cleaned, Blank(cl))
  }

  ghost predicate GraphInv(w: World, actions: seq<Action>, g: Graph) {
    GraphAgrees(w, g) && forall h | h in Filed(actions) :: h in g && g[h].Filled?
  }

  ghost predicate CLsInv(w: World, actions: seq<Action>, s: State)
    requires w.Valid()
  {
    && (forall n | n in s.cls :: CLInv(w, s.graph, TrackOf(actions, n), s.cls[n]))
    && (forall n | n !in s.cls :: TrackOf(actions, n) == NO_TRACK)
    && (forall n :: n in s.dirty <==> TrackOf(actions, n).isDirty)
  }

  ghost predicate Inv(w: World, actions: seq<Action>, s: State)
    requires w.Valid()
  {
    GraphInv(w, actions, s.graph) && CLsInv(w, actions, s)
  }

  lemma FiledMore(actions: seq<Action>, a: Action)
    ensures Filed(actions + [a]) ==
              Filed(actions) + if (a.FileIt? || a.FileForeign?) && Parses(a.commit) then {a.commit.sha1} else {}
  {
    assert forall x :: x in actions + [a] <==> x in actions || x == a;
  }

  lemma CLInvKept(w: World, g: Graph, g': Graph, t: Track, cl: CL)
    requires w.Valid() && CLInv(w, g, t, cl)
    requires forall h | h in g && g[h].Filled? :: h in g' && g'[h].Filled?
    ensures CLInv(w, g', t, cl)
  {
  }

  lemma FileKeepsInv(w: World, actions: seq<Action>, s: State, a: Action)
    requires w.Valid() && Inv(w, actions, s) && (a.FileIt? || a.FileForeign?) && Addressed(w, a)
    ensures Inv(w, actions + [a], Do(w.rank, s, a))
  {
    FilingIs(w.rank, s, a);
    InstallAgrees(w, s.graph, a.commit);
    FiledMore(actions, a);
    assert GraphInv(w, actions + [a], Install(s.graph, a.commit));
    FilingKeepsCLs(w, actions, s, a, Do(w.rank, s, a));
  }

  lemma FilingIs(rank: Hash -> nat, s: State, a: Action)
    requires a.FileIt? || a.FileForeign?
    ensures var s' := Do(rank, s, a); s' == s.(graph := Install(s.graph, a.commit), commit := s'.commit, need := s'.need)
  {
  }

  lemma FilingKeepsCLs(w: World, actions: seq<Action>, s: State, a: Action, s': State)
    requires w.Valid() && CLsInv(w, actions, s) && (a.FileIt? || a.FileForeign?)
    requires s'.cls == s.cls && s'.dirty == s.dirty
    requires forall h | h in s.graph && s.graph[h].Filled? :: h in s'.graph && s'.graph[h].Filled?
    ensures CLsInv(w, actions + [a], s')
  {
    forall n ensures TrackOf(actions + [a], n) == TrackOf(actions, n) {
      TrackStep(actions, a, n);
    }
    forall n | n in s.cls ensures CLInv(w, s'.graph, TrackOf(actions + [a], n), s.cls[n]) {
      CLInvKept(w, s.graph, s'.graph, TrackOf(actions, n), s.cls[n]);
    }
  }

  /** A ref moves, but not a CL's head. */
  lemma PatchSetKeepsCLInv(w: World, g: Graph, t: Track, cl: CL, cl': CL)
    requires w.Valid() && CLInv(w, g, t, cl) && cl' == cl.(commit := cl'.commit, version := cl'.version)
    ensures CLInv(w, g, t, cl')
  {
    DeriveAllKeepsRefs(w, t.cleaned, Blank(cl), Blank(cl'));
  }

  /** Setting a ref that is not a meta ref, or deleting one, leaves the derived fields alone. */
  lemma PlainKeepsInv(w: World, actions: seq<Action>, s: State, a: Action)
    requires w.Valid() && Inv(w, actions, s) && (a.DeleteRef? || (a.Point? && !IsMeta(a)))
    ensures Inv(w, actions + [a], Do(w.rank, s, a))
  {
    var s' := Do(w.rank, s, a);
    assert s'.graph == s.graph && s'.dirty == s.dirty && s.cls.Keys <= s'.cls.Keys;
    FiledMore(actions, a);
    forall n ensures TrackOf(actions + [a], n) == TrackOf(actions, n) {
      TrackStep(actions, a, n);
    }
    forall n | n in s'.cls ensures CLInv(w, s.graph, TrackOf(actions, n), s'.cls[n]) {
      if n in s.cls {
        PlainKeepsCL(w.rank, s, a, n);
        PatchSetKeepsCLInv(w, s.graph, TrackOf(actions, n), s.cls[n], s'.cls[n]);
      } else {
        NewCLIsBlank(w.rank, s, a, n);
      }
    }
  }

  lemma PlainKeepsCL(rank: Hash -> nat, s: State, a: Action, n: int)
    requires (a.DeleteRef? || (a.Point? && !IsMeta(a))) && n in s.cls
    ensures var s' := Do(rank, s, a);
            n in s'.cls && s'.cls[n] == s.cls[n].(commit := s'.cls[n].commit, version := s'.cls[n].version)
  {
  }

  lemma NewCLIsBlank(rank: Hash -> nat, s: State, a: Action, n: int)
    requires (a.DeleteRef? || (a.Point? && !IsMeta(a))) && n !in s.cls
    ensures var s' := Do(rank, s, a);
            n in s'.cls ==> s'.cls[n] == Blank(s'.cls[n]) && s'.cls[n].meta == None
  {
  }

  /** A meta ref moves the head; what was derived stays until the next clean-up. */
  lemma MetaKeepsInv(w: World, actions: seq<Action>, s: State, a: Action)
    requires w.Valid() && Inv(w, actions, s) && IsMeta(a) && MayCome(w, actions, a)
    ensures Inv(w, actions + [a], Do(w.rank, s, a))
  {
    var h, number := a.ref.hash, a.ref.name.number;
    FiledMore(actions, a);
    assert IsAncestor(w, h, h);
    assert KnownHistory(w, s.graph, h);
    forall n ensures TrackOf(actions + [a], n) == NextTrack(TrackOf(actions, n), a, n) {
      TrackStep(actions, a, n);
    }
    var t := TrackOf(actions, number);
    assert CLInv(w, s.graph, NextTrack(t, a, number), GetCL(s, number).(meta := Some(h))) by {
      if number in s.cls {
        HeadMoves(w, s.graph, t, s.cls[number], h);
      }
    }
    MetaKeepsOthers(w, actions, s, a);
  }

  lemma HeadMoves(w: World, g: Graph, t: Track, cl: CL, h: Hash)
    requires w.Valid() && CLInv(w, g, t, cl) && KnownHistory(w, g, h)
    ensures CLInv(w, g, t.(head := Some(h), isDirty := true), cl.(meta := Some(h)))
  {
    DeriveAllKeepsRefs(w, t.cleaned, Blank(cl), Blank(cl.(meta := Some(h))));
  }

  lemma MetaKeepsOthers(w: World, actions: seq<Action>, s: State, a: Action)
    requires w.Valid() && Inv(w, actions, s) && IsMeta(a) && a.ref.hash in s.graph
    requires Filed(actions + [a]) == Filed(actions)
    requires forall n :: TrackOf(actions + [a], n) == NextTrack(TrackOf(actions, n), a, n)
    requires var n := a.ref.name.number;
             CLInv(w, s.graph, TrackOf(actions + [a], n), GetCL(s, n).(meta := Some(a.ref.hash)))
    ensures Inv(w, actions + [a], Do(w.rank, s, a))
  {
    var s' := Do(w.rank, s, a);
    forall n | n in s'.cls ensures CLInv(w, s'.graph, TrackOf(actions + [a], n), s'.cls[n]) {
      if n != a.ref.name.number {
        assert CLInv(w, s.graph, TrackOf(actions, n), s.cls[n]);
      }
    }
  }

  /** A clean-up derives the fields of a dirty CL from its head. */
  lemma FinishKeepsCLInv(w: World, g: Graph, t: Track, cl: CL)
    requires w.Valid() && GraphAgrees(w, g) && CLInv(w, g, t, cl) && t.isDirty && t.head.Some?
    ensures CLInv(w, g, t.(isDirty := false, cleaned := t.cleaned + [t.head.value]), FinishCL(w.rank, g, cl))
  {
    WalkIsHistory(w, g, t.head.value);
    assert (t.cleaned + [t.head.value])[..|t.cleaned|] == t.cleaned;
    assert Blank(FinishCL(w.rank, g, cl)) == Blank(cl);
  }

  lemma FinishKeepsInv(w: World, actions: seq<Action>, s: State)
    requires w.Valid() && Inv(w, actions, s)
    ensures Inv(w, actions + [Finish], FinishAll(w.rank, s))
  {
    var s' := FinishAll(w.rank, s);
    FiledMore(actions, Finish);
    forall n ensures TrackOf(actions + [Finish], n) == NextTrack(TrackOf(actions, n), Finish, n) && Settled(TrackOf(actions, n)) {
      TrackStep(actions, Finish, n);
      TracksSettle(actions, n);
    }
    forall n | n in s.cls ensures CLInv(w, s.graph, TrackOf(actions + [Finish], n), s'.cls[n]) {
      var t := TrackOf(actions, n);
      assert CLInv(w, s.graph, t, s.cls[n]);
      if t.isDirty {
        FinishKeepsCLInv(w, s.graph, t, s.cls[n]);
      }
    }
  }

  /** The invariant holds after every run whose heads are backed, whenever its clean-ups happen. */
  lemma {:induction false} RunKeepsInv(w: World, actions: seq<Action>)
    requires w.Valid() && Backed(w, actions)
    ensures Inv(w, actions, Exec(w.rank, EMPTY_STATE, actions))
  {
    if actions != [] {
      var before, a := actions[..|actions| - 1], actions[|actions| - 1];
      assert actions == before + [a];
      RunKeepsInv(w, before);
      var s := Exec(w.rank, EMPTY_STATE, before);
      if a.Finish? {
        FinishKeepsInv(w, before, s);
      } else if IsMeta(a) {
        MetaKeepsInv(w, before, s, a);
      } else if a.FileIt? || a.FileForeign? {
        FileKeepsInv(w, before, s, a);
      } else {
        PlainKeepsInv(w, before, s, a);
      }
    }
  }

  // ---- Exactly when the fix-ups agree with full recomputation ----

  ghost predicate EverPrivate(w: World, hs: seq<Hash>)
    requires w.Valid()
  {
    exists i :: 0 <= i < |hs| && AnyPrivate(History(w, hs[i]))
  }

  /** The status named by the latest of the heads that names one, or "". */
  function NamedStatus(w: World, hs: seq<Hash>): string
    requires w.Valid()
  {
    if hs == [] then ""
    else
      var status := FirstStatus(History(w, hs[|hs| - 1]));
      if status != "" then status else NamedStatus(w, hs[..|hs| - 1])
  }

  /** The branch named by the latest of the heads that names one. */
  function NamedBranch(w: World, hs: seq<Hash>): Option<string>
    requires w.Valid()
  {
    if hs == [] then None
    else
      var branch := FirstBranch(History(w, hs[|hs| - 1]));
      if branch.Some? then branch else NamedBranch(w, hs[..|hs| - 1])
  }

  /**
   The last head tells as much as all heads together: it is private if any was, it names a status unless the others
   leave "new", and it names a branch unless the others leave none.
   */
  ghost predicate LastTellsAll(w: World, hs: seq<Hash>)
    requires w.Valid()
  {
    hs == [] ||
    (var earlier, es := hs[..|hs| - 1], History(w, hs[|hs| - 1]);
     && (EverPrivate(w, earlier) ==> AnyPrivate(es))
     && (FirstStatus(es) != "" || NamedStatus(w, earlier) in ["", "new"])
     && (FirstBranch(es).Some? || NamedBranch(w, earlier) in [None, Some("")]))
  }

  /** The fields that clean-ups at several heads can leave behind. */
  lemma {:induction false} DeriveAllIs(w: World, hs: seq<Hash>, cl: CL)
    requires w.Valid() && cl == Blank(cl)
    ensures var d := DeriveAll(w, hs, cl);
            && d.isPrivate == EverPrivate(w, hs)
            && d.status == (if NamedStatus(w, hs) != "" then NamedStatus(w, hs) else if hs == [] then "" else "new")
            && d.branch == (if NamedBranch(w, hs).Some? then NamedBranch(w, hs).value else "")
  {
    if hs != [] {
      var n := |hs| - 1;
      DeriveAllIs(w, hs[..n], cl);
      EverPrivateStep(w, hs);
    }
  }

  lemma EverPrivateStep(w: World, hs: seq<Hash>)
    requires w.Valid() && hs != []
    ensures EverPrivate(w, hs) <==> EverPrivate(w, hs[..|hs| - 1]) || AnyPrivate(History(w, hs[|hs| - 1]))
  {
    var init := hs[..|hs| - 1];
    if EverPrivate(w, init) {
      var i :| 0 <= i < |init| && AnyPrivate(History(w, init[i]));
      assert hs[i] == init[i];
    }
    if i :| 0 <= i < |hs| && AnyPrivate(History(w, hs[i])) {
      assert i < |init| ==> init[i] == hs[i];
    }
  }

  /** Cleaning up at all the heads gives what cleaning up at the last gives exactly when the last tells all. */
  lemma LastIsEnough(w: World, hs: seq<Hash>, cl: CL)
    requires w.Valid() && hs != [] && cl == Blank(cl)
    ensures DeriveAll(w, hs, cl) == Derive(History(w, hs[|hs| - 1]), cl) <==> LastTellsAll(w, hs)
  {
    var n := |hs| - 1;
    DeriveAllIs(w, hs[..n], cl);
    var d := DeriveAll(w, hs[..n], cl);
    SameOthers(w, hs[..n], cl);
    DeriveSame(History(w, hs[n]), d, cl);
  }

  lemma {:induction false} SameOthers(w: World, hs: seq<Hash>, cl: CL)
    requires w.Valid()
    ensures var d := DeriveAll(w, hs, cl); d.meta == cl.meta && d.commit == cl.commit && d.version == cl.version
  {
    if hs != [] {
      SameOthers(w, hs[..|hs| - 1], cl);
    }
  }

  lemma DeriveSame(es: seq<Entry>, d: CL, cl: CL)
    requires es != [] && d.meta == cl.meta && d.commit == cl.commit && d.version == cl.version
    ensures Derive(es, d) == Derive(es, cl) <==>
              && Derive(es, d).isPrivate == Derive(es, cl).isPrivate
              && Derive(es, d).status == Derive(es, cl).status
              && Derive(es, d).branch == Derive(es, cl).branch
  {
  }

  predicate EndsClean(actions: seq<Action>) {
    actions != [] && actions[|actions| - 1].Finish?
  }

  /** Nothing is dirty, and every CL is as computed from scratch. */
  ghost predicate UpToDate(w: World, s: State)
    requires w.Valid()
  {
    s.dirty == {} && forall n | n in s.cls :: s.cls[n] == Recomputed(w, s.cls[n])
  }

  lemma EndsSettled(actions: seq<Action>, n: int)
    requires EndsClean(actions)
    ensures !TrackOf(actions, n).isDirty && Settled(TrackOf(actions, n))
  {
    TracksSettle(actions, n);
    TracksSettle(actions[..|actions| - 1], n);
  }

  ghost predicate RunTellsAll(w: World, actions: seq<Action>)
    requires w.Valid()
  {
    forall n :: LastTellsAll(w, TrackOf(actions, n).cleaned)
  }

  /** The fix-ups agree with full recomputation exactly when for every CL the last head cleaned up tells all. */
  lemma FixupsAgreeExactly(w: World, actions: seq<Action>)
    requires w.Valid() && Backed(w, actions) && EndsClean(actions)
    ensures UpToDate(w, Exec(w.rank, EMPTY_STATE, actions)) <==> RunTellsAll(w, actions)
  {
    RunKeepsInv(w, actions);
    var s := Exec(w.rank, EMPTY_STATE, actions);
    forall n ensures n !in s.dirty && (n !in s.cls ==> TrackOf(actions, n).cleaned == []) {
      EndsSettled(actions, n);
    }
    forall n | n in s.cls ensures s.cls[n] == Recomputed(w, s.cls[n]) <==> LastTellsAll(w, TrackOf(actions, n).cleaned) {
      var t := TrackOf(actions, n);
      assert CLInv(w, s.graph, t, s.cls[n]);
      EndsSettled(actions, n);
      if t.head.Some? {
        LastIsEnough(w, t.cleaned, Blank(s.cls[n]));
      }
    }
    assert s.dirty == {};
  }

  // ---- A branch that only grows tells all ----

  lemma {:induction false} TracksArePoints(actions: seq<Action>, n: int, h: Hash)
    requires var t := TrackOf(actions, n); t.head == Some(h) || h in t.cleaned
    ensures Point(Ref(ChangeRef(n, 0), h)) in actions
  {
    var before := actions[..|actions| - 1];
    assert actions == before + [actions[|actions| - 1]];
    if TrackOf(before, n).head == Some(h) || h in TrackOf(before, n).cleaned {
      TracksArePoints(before, n, h);
    } else {
      var a := actions[|actions| - 1];
      assert a == Point(Ref(ChangeRef(n, 0), h));
    }
  }

  /** Every head cleaned up is below the head of the branch. */
  lemma {:induction false} TracksGrow(w: World, actions: seq<Action>, n: int)
    requires w.Valid() && WellFormed(w, actions)
    ensures var t := TrackOf(actions, n);
            t.head.Some? ==> Linear(w, t.head.value) && forall h | h in t.cleaned :: IsAncestor(w, h, t.head.value)
  {
    if actions != [] {
      var before, a := actions[..|actions| - 1], actions[|actions| - 1];
      TracksGrow(w, before, n);
      var t, t' := TrackOf(before, n), TrackOf(actions, n);
      if IsMeta(a) && a.ref.name.number == n {
        forall h | h in t.cleaned ensures IsAncestor(w, h, a.ref.hash) {
          TracksArePoints(before, n, h);
          assert IsMeta(Point(Ref(ChangeRef(n, 0), h)));
        }
      } else if t.head.Some? {
        assert IsAncestor(w, t.head.value, t.head.value);
      }
    }
  }

  /** A head above another one tells all that the other does. */
  lemma HigherTellsMore(w: World, a: Hash, h: Hash)
    requires w.Valid() && Linear(w, h) && IsAncestor(w, a, h)
    ensures AnyPrivate(History(w, a)) ==> AnyPrivate(History(w, h))
    ensures FirstStatus(History(w, a)) != "" ==> FirstStatus(History(w, h)) != ""
    ensures FirstBranch(History(w, a)).Some? ==> FirstBranch(History(w, h)).Some?
  {
    var newer := HistorySuffix(w, a, h);
    FirstOfAppend(newer, History(w, a));
    if AnyPrivate(History(w, a)) {
      var e :| e in History(w, a) && e.rec.note.isPrivate;
      assert e in newer + History(w, a);
    }
  }

  lemma {:induction false} NamedBySome(w: World, hs: seq<Hash>)
    requires w.Valid()
    ensures NamedStatus(w, hs) != "" ==> exists h :: h in hs && FirstStatus(History(w, h)) != ""
    ensures NamedBranch(w, hs).Some? ==> exists h :: h in hs && FirstBranch(History(w, h)).Some?
  {
    if hs != [] {
      NamedBySome(w, hs[..|hs| - 1]);
      assert hs == hs[..|hs| - 1] + [hs[|hs| - 1]];
    }
  }

  lemma GrowthTellsAll(w: World, hs: seq<Hash>)
    requires w.Valid() && (hs != [] ==> Linear(w, hs[|hs| - 1]))
    requires forall h | h in hs :: IsAncestor(w, h, hs[|hs| - 1])
    ensures LastTellsAll(w, hs)
  {
    if hs != [] {
      var n := |hs| - 1;
      var init := hs[..n];
      forall h | h in init ensures h in hs {
      }
      forall h | h in init ensures (AnyPrivate(History(w, h)) ==> AnyPrivate(History(w, hs[n])))
        && (FirstStatus(History(w, h)) != "" ==> FirstStatus(History(w, hs[n])) != "")
        && (FirstBranch(History(w, h)).Some? ==> FirstBranch(History(w, hs[n])).Some?)
      {
        HigherTellsMore(w, h, hs[n]);
      }
      NamedBySome(w, init);
      if EverPrivate(w, init) {
        var i :| 0 <= i < |init| && AnyPrivate(History(w, init[i]));
        assert init[i] in init;
      }
    }
  }

  /** On branches that only grow the fix-ups agree with full recomputation, whenever the clean-ups happened. */
  lemma FixupsAgreeWithRecomputation(w: World, actions: seq<Action>)
    requires w.Valid() && WellFormed(w, actions) && EndsClean(actions)
    ensures UpToDate(w, Exec(w.rank, EMPTY_STATE, actions))
  {
    WellFormedIsBacked(w, actions);
    FixupsAgreeExactly(w, actions);
    forall n ensures LastTellsAll(w, TrackOf(actions, n).cleaned) {
      EndsSettled(actions, n);
      TracksGrow(w, actions, n);
      GrowthTellsAll(w, TrackOf(actions, n).cleaned);
    }
  }

  // ---- When the clean-ups happen makes no difference ----

  function WithoutFinish(actions: seq<Action>): seq<Action> {
    if actions == [] then []
    else
      var rest := WithoutFinish(actions[..|actions| - 1]);
      if actions[|actions| - 1].Finish? then rest else rest + [actions[|actions| - 1]]
  }

  /** The two states differ at most in derived CL fields and in what is dirty. */
  ghost predicate SameRefs(s: State, t: State) {
    && s.graph == t.graph && s.commit == t.commit && s.need == t.need && s.remote == t.remote && s.ref == t.ref
    && s.cls.Keys == t.cls.Keys
    && forall n | n in s.cls :: Blank(s.cls[n]) == Blank(t.cls[n])
  }

  lemma {:induction false} FinishOnlyDerives(rank: Hash -> nat, s: State, actions: seq<Action>)
    ensures SameRefs(Exec(rank, s, actions), Exec(rank, s, WithoutFinish(actions)))
  {
    if actions != [] {
      var before, a := actions[..|actions| - 1], actions[|actions| - 1];
      FinishOnlyDerives(rank, s, before);
      if !a.Finish? {
        assert (WithoutFinish(before) + [a])[..|WithoutFinish(before)|] == WithoutFinish(before);
        DoKeepsSameRefs(rank, Exec(rank, s, before), Exec(rank, s, WithoutFinish(before)), a);
      }
    }
  }

  lemma DoKeepsSameRefs(rank: Hash -> nat, s: State, t: State, a: Action)
    requires SameRefs(s, t) && !a.Finish?
    ensures SameRefs(Do(rank, s, a), Do(rank, t, a))
  {
    match a
    case FileIt(p) => FileKeepsSameRefs(s, t, p);
    case FileForeign(p) =>
    case DeleteRef(name) =>
    case Point(r) => SetRefKeepsSameRefs(s, t, r);
  }

  lemma FileKeepsSameRefs(s: State, t: State, p: CommitProto)
    requires SameRefs(s, t)
    ensures SameRefs(FileCommit(s, p), FileCommit(t, p))
  {
  }

  lemma SetRefKeepsSameRefs(s: State, t: State, r: Ref)
    requires SameRefs(s, t)
    ensures SameRefs(SetRef(s, r), SetRef(t, r))
  {
    if r.hash in s.graph && r.name.ChangeRef? {
      var n, s', t' := r.name.number, SetRef(s, r), SetRef(t, r);
      var c, d := GetCL(s, n), GetCL(t, n);
      assert Blank(c) == Blank(d);
      assert Blank(s'.cls[n]) == Blank(t'.cls[n]);
      assert s'.cls.Keys == s.cls.Keys + {n} == t'.cls.Keys;
      forall k | k in s'.cls && k != n ensures Blank(s'.cls[k]) == Blank(t'.cls[k]) {
        assert s'.cls[k] == s.cls[k] && t'.cls[k] == t.cls[k];
      }
    }
  }

  lemma {:induction false} WithoutFinishKeeps(actions: seq<Action>)
    ensures forall a :: a in WithoutFinish(actions) <==> a in actions && !a.Finish?
    ensures Filed(WithoutFinish(actions)) == Filed(actions)
  {
    if actions != [] {
      WithoutFinishKeeps(actions[..|actions| - 1]);
      assert actions == actions[..|actions| - 1] + [actions[|actions| - 1]];
    }
  }

  lemma {:induction false} BackedIgnoresFinish(w: World, actions: seq<Action>)
    requires w.Valid() && Backed(w, WithoutFinish(actions))
    ensures Backed(w, actions)
  {
    if actions != [] {
      var before, a := actions[..|actions| - 1], actions[|actions| - 1];
      if !a.Finish? {
        assert WithoutFinish(actions)[..|WithoutFinish(before)|] == WithoutFinish(before);
      }
      BackedIgnoresFinish(w, before);
      WithoutFinishKeeps(before);
    }
  }

  lemma {:induction false} WellFormedIgnoresFinish(w: World, actions: seq<Action>)
    requires w.Valid() && WellFormed(w, WithoutFinish(actions))
    ensures WellFormed(w, actions)
  {
    if actions != [] {
      var before, a := actions[..|actions| - 1], actions[|actions| - 1];
      if !a.Finish? {
        assert WithoutFinish(actions)[..|WithoutFinish(before)|] == WithoutFinish(before);
      }
      WellFormedIgnoresFinish(w, before);
      WithoutFinishKeeps(before);
    }
  }

  /**
   Two runs over the same pieces in the same order, each cleaned up at the end and cleaned up
   in between at any times at all, agree on everything.
   */
  lemma CleanupTimesDoNotMatter(w: World, a: seq<Action>, b: seq<Action>)
    requires w.Valid() && WellFormed(w, WithoutFinish(a))
    requires EndsClean(a) && EndsClean(b) && WithoutFinish(a) == WithoutFinish(b)
    ensures Exec(w.rank, EMPTY_STATE, a) == Exec(w.rank, EMPTY_STATE, b)
  {
    WellFormedIgnoresFinish(w, a);
    WellFormedIgnoresFinish(w, b);
    FixupsAgreeWithRecomputation(w, a);
    FixupsAgreeWithRecomputation(w, b);
    SameWhenUpToDate(w, a, b);
  }

  /** Up to date, the state depends on the pieces only. */
  lemma SameWhenUpToDate(w: World, a: seq<Action>, b: seq<Action>)
    requires w.Valid() && WithoutFinish(a) == WithoutFinish(b)
    requires UpToDate(w, Exec(w.rank, EMPTY_STATE, a)) && UpToDate(w, Exec(w.rank, EMPTY_STATE, b))
    ensures Exec(w.rank, EMPTY_STATE, a) == Exec(w.rank, EMPTY_STATE, b)
  {
    FinishOnlyDerives(w.rank, EMPTY_STATE, a);
    FinishOnlyDerives(w.rank, EMPTY_STATE, b);
    UpToDateIsUnique(w, Exec(w.rank, EMPTY_STATE, a), Exec(w.rank, EMPTY_STATE, b),
                     Exec(w.rank, EMPTY_STATE, WithoutFinish(a)));
  }

  lemma UpToDateIsUnique(w: World, s: State, t: State, refs: State)
    requires w.Valid() && UpToDate(w, s) && UpToDate(w, t) && SameRefs(s, refs) && SameRefs(t, refs)
    ensures s == t
  {
    forall n | n in s.cls ensures n in t.cls && s.cls[n] == t.cls[n] {
      assert Blank(s.cls[n]) == Blank(refs.cls[n]) == Blank(t.cls[n]);
      assert s.cls[n].meta == Blank(s.cls[n]).meta == t.cls[n].meta;
    }
  }

  lemma {:induction false} WithoutFinishAppend(a: seq<Action>, b: seq<Action>)
    ensures WithoutFinish(a + b) == WithoutFinish(a) + WithoutFinish(b)
  {
    if b == [] {
      assert a + b == a;
    } else {
      WithoutFinishAppend(a, b[..|b| - 1]);
      assert (a + b)[..|a + b| - 1] == a + b[..|b| - 1];
    }
  }

  lemma {:induction false} NoFinishToRemove(actions: seq<Action>)
    requires Finish !in actions
    ensures WithoutFinish(actions) == actions
  {
    if actions != [] {
      NoFinishToRemove(actions[..|actions| - 1]);
    }
  }

  lemma {:induction false} LeaderPieces(log: seq<Mutation>)
    ensures WithoutFinish(LeaderActions(log)) == LogActions(log)
    ensures Finish !in LogActions(log)
    ensures log != [] ==> EndsClean(LeaderActions(log))
  {
    if log != [] {
      var before, m := log[..|log| - 1], log[|log| - 1];
      LeaderPieces(before);
      if m.GerritMutation? {
        ActionsOf(m.commits, m.deletedRefs, m.refs);
      }
      assert Finish !in Pieces(m);
      NoFinishToRemove(Pieces(m));
      WithoutFinishAppend(LeaderActions(before), Pieces(m));
      WithoutFinishAppend(LeaderActions(before) + Pieces(m), [Finish]);
      assert WithoutFinish([Finish]) == WithoutFinish([]);
    }
  }

  lemma FollowerPieces(log: seq<Mutation>)
    ensures WithoutFinish(FollowerActions(log)) == LogActions(log)
  {
    LeaderPieces(log);
    NoFinishToRemove(LogActions(log));
    WithoutFinishAppend(LogActions(log), [Finish]);
    assert WithoutFinish([Finish]) == WithoutFinish([]);
  }

  /** The leader, cleaning up after every mutation, and a follower, cleaning up once, reach the same state. */
  lemma LeaderFollowerAgree(w: World, log: seq<Mutation>)
    requires w.Valid() && WellFormed(w, LogActions(log))
    ensures Exec(w.rank, EMPTY_STATE, LeaderActions(log)) == Exec(w.rank, EMPTY_STATE, FollowerActions(log))
  {
    if log == [] {
      assert FollowerActions(log) == [Finish];
      assert Exec(w.rank, EMPTY_STATE, [Finish]) == FinishAll(w.rank, Exec(w.rank, EMPTY_STATE, []));
      assert FinishAll(w.rank, EMPTY_STATE) == EMPTY_STATE;
    } else {
      LeaderPieces(log);
      FollowerPieces(log);
      CleanupTimesDoNotMatter(w, LeaderActions(log), FollowerActions(log));
    }
  }
}
