/** The objects of maintner/gerrit.go: a project, its CLs, and the methods that change them. */
module Gerrit {
  import opened Basics
  import opened Git
  import opened GerritSpec
  import opened MetaLaws

  /** Reverses a slice by swapping from the middle outwards. */
  method ReverseSlice<T>(ss: seq<T>) returns (r: seq<T>)
    ensures r == Reversed(ss)
  {
    r := ss;
    var i := |ss| / 2 - 1;
    while i >= 0
      invariant -1 <= i <= |ss| / 2 - 1
      invariant |r| == |ss|
      invariant forall k :: 0 <= k <= i || |ss| - 1 - i <= k < |ss| ==> r[k] == ss[k]
      invariant forall k :: i < k < |ss| - 1 - i ==> r[k] == ss[|ss| - 1 - k]
    {
      var opp := |r| - 1 - i;
      r := r[i := r[opp]][opp := r[i]];
      i := i - 1;
    }
  }

  class GerritCL {
    const number: int
    var meta: Option<Hash>
    var commit: Option<Hash>
    var version: int
    var metas: seq<GitCommit>
    var messages: seq<string>
    var status: string
    var branch: string
    var created: int
    var isPrivate: bool

    constructor (number: int)
      ensures this.number == number && Holds(NEW_CL)
    {
      this.number := number;
      meta, commit, version := None, None, 0;
      metas, messages, status, branch, created, isPrivate := [], [], "", "", ZERO_TIME, false;
    }

    /** The object holds what the value says. */
    ghost predicate Holds(cl: CL)
      reads this
    {
      && meta == cl.meta && commit == cl.commit && version == cl.version
      && messages == cl.messages && status == cl.status && branch == cl.branch
      && created == cl.created && isPrivate == cl.isPrivate
      && Named(metas, cl.metas)
    }

    /** The CL tells of its meta branch, oldest commit first: what a clean-up at the only parent tells, and the head's own part. */
    ghost predicate Tells(rank: Hash -> nat, g: Graph, view: CL)
      requires view.meta.Some? && view.meta.value in g && g[view.meta.value].Filled?
      reads this
    {
      var h, rec := view.meta.value, g[view.meta.value].rec;
      if rec.parents == [] then messages == OwnMessage(rec) && Named(metas, [h])
      else
        var before := At(rank, g, view, rec.parents[0]);
        messages == before.messages + OwnMessage(rec) && Named(metas, before.metas + [h]) && created == before.created
    }

    /** A ref of the CL moves. */
    method Point(version: int, h: Hash, ghost view: CL)
      requires Holds(view)
      modifies this`meta, this`commit, this`version
      ensures Holds(Pointed(view, version, h))
    {
      if version == 0 {
        meta := Some(h);
      } else {
        commit, this.version := Some(h), version;
      }
    }

    /** The fields that a complete walk over the meta commits es sets. */
    method SetDerived(gathered: Gathered, ghost es: seq<Entry>, ghost view: CL)
      requires es != [] && Gathers(gathered, es)
      requires Holds(view.(isPrivate := view.isPrivate || AnyPrivate(es)))
      modifies this
      ensures Holds(Derive(es, view))
    {
      if gathered.status != "" {
        status := gathered.status;
      } else if status == "" {
        status := "new";
      }
      messages := ReverseSlice(gathered.messages);
      SetMetas(gathered.metas, es);
    }

    method SetMetas(backward: seq<GitCommit>, ghost es: seq<Entry>)
      requires |backward| == |es| > 0
      requires forall i :: 0 <= i < |es| ==> backward[i].hash == es[i].hash && ReadsAs(backward[i], es[i].rec)
      modifies this`metas, this`created, this`branch
      ensures Named(metas, Reversed(HashesOfEntries(es))) && created == CommitTime(es[|es| - 1].rec)
      ensures branch == if FirstBranch(es).Some? then FirstBranch(es).value else old(branch)
    {
      StoreMetas(backward, es);
      UpdateBranch(es);
    }

    method StoreMetas(backward: seq<GitCommit>, ghost es: seq<Entry>)
      requires |backward| == |es| > 0
      requires forall i :: 0 <= i < |es| ==> backward[i].hash == es[i].hash && ReadsAs(backward[i], es[i].rec)
      modifies this`metas, this`created
      ensures Named(metas, Reversed(HashesOfEntries(es))) && created == CommitTime(es[|es| - 1].rec)
      ensures |metas| == |es| && forall i :: 0 <= i < |es| ==> metas[|es| - 1 - i].note == es[i].rec.note
    {
      metas := ReverseSlice(backward);
      assert metas[0] == backward[|es| - 1];
      created := TimeOf(metas[0].committer);
      assert forall i :: 0 <= i < |es| ==> metas[|es| - 1 - i] == backward[i];
    }

    /** Takes the branch from the newest meta commit that names one, if any does. */
    method UpdateBranch(ghost es: seq<Entry>)
      requires |es| == |metas|
      requires forall i :: 0 <= i < |es| ==> metas[|es| - 1 - i].note == es[i].rec.note
      modifies this`branch
      ensures branch == if FirstBranch(es).Some? then FirstBranch(es).value else old(branch)
    {
      var i := |metas|;
      while i > 0
        invariant 0 <= i <= |metas|
        invariant branch == old(branch)
        invariant FirstBranch(es) == FirstBranch(es[|es| - i..])
      {
        i := i - 1;
        var name := metas[i].note.branch;
        assert es[|es| - i - 1..][1..] == es[|es| - i..];
        assert metas[|es| - 1 - (|es| - 1 - i)].note == es[|es| - 1 - i].rec.note;
        if name.Some? {
          branch := name.value;
          return;
        }
      }
    }
  }

  /** What a walk down a meta branch has gathered, newest first. */
  datatype Gathered = Gathered(status: string, messages: seq<string>, metas: seq<GitCommit>)

  ghost predicate Gathers(g: Gathered, es: seq<Entry>)
    reads g.metas
  {
    && g.status == FirstStatus(es)
    && g.messages == MessagesOf(es)
    && |g.metas| == |es|
    && forall i :: 0 <= i < |es| ==> g.metas[i].hash == es[i].hash && ReadsAs(g.metas[i], es[i].rec)
  }

  function TimeOf(c: CommitterField): int {
    match c
    case Known(p) => p.time
    case _ => ZERO_TIME
  }

  /** The object reads as the record. */
  ghost predicate ReadsAs(gc: GitCommit, rec: Record)
    reads gc
  {
    gc.note == rec.note && Named(gc.parents, rec.parents) && TimeOf(gc.committer) == CommitTime(rec)
  }

  class GerritProject {
    const corpus: Corpus
    var commit: map<Hash, GitCommit>
    var need: set<Hash>
    var remote: map<(int, int), Hash>
    var ref: map<string, Hash>
    var cls: map<int, GerritCL>
    var dirtyCL: set<int>  // by number: cls holds one object per CL
    ghost var known: map<Hash, seq<Hash>>  // the contents of commit as a value
    ghost var views: map<int, CL>  // the contents of cls as a value
    ghost var clObjects: set<GerritCL>  // the objects in cls
    ghost const world: World

    constructor (corpus: Corpus, ghost world: World)
      requires corpus.Valid() && corpus.gitCommit == map[]
      ensures this.corpus == corpus && this.world == world && Valid()
      ensures View() == EMPTY_STATE
    {
      this.corpus := corpus;
      this.world := world;
      commit, need, remote, ref, cls, dirtyCL := map[], {}, map[], map[], map[], {};
      known, views, clObjects := map[], map[], {};
    }

    ghost predicate Valid()
      reads this, corpus, corpus.objects, commit.Values, clObjects
    {
      corpus.Valid() && ValidCommits() && ValidCLs()
    }

    /** The project and its graph as a value. */
    ghost function View(): State
      reads this, corpus
    {
      State(corpus.graph, known, need, remote, ref, views, dirtyCL)
    }

    ghost predicate ValidCommits()
      reads this`commit, this`known, commit.Values
    {
      && commit.Keys == known.Keys
      && forall h | h in commit :: KeepsCommit(h, known[h])
    }

    ghost predicate KeepsCommit(h: Hash, parents: seq<Hash>)
      requires h in commit
      reads this`commit, commit[h]
    {
      commit[h].hash == h && commit[h].committer != Sentinel && Named(commit[h].parents, parents)
    }

    ghost predicate ValidCLs()
      reads this`cls, this`views, this`clObjects, clObjects
    {
      cls.Keys == views.Keys && forall n | n in cls :: cls[n] in clObjects && CLOk(n, cls[n], views[n])
    }

    ghost predicate CLOk(n: int, cl: GerritCL, view: CL)
      reads cl
    {
      cl.number == n && cl.Holds(view)
    }

    // ---- Processing a mutation ----

    /** What there is now and was not there before is new. */
    twostate predicate OnlyNewCLs()
      reads this`clObjects
    {
      forall o | o in clObjects :: o in old(clObjects) || fresh(o)
    }

    twostate predicate OnlyNewCommits()
      reads corpus`objects
    {
      forall o | o in corpus.objects :: o in old(corpus.objects) || fresh(o)
    }

    method MarkNeededCommit(h: Hash)
      modifies this`need
      ensures need == if h in commit then old(need) else old(need) + {h}
    {
      if h in commit {
        return;
      }
      need := need + {h};
    }

    /** Records a commit that parsed and asks for its unknown parents. */
    method Index(gc: GitCommit, ghost hs: seq<Hash>)
      requires commit.Keys == known.Keys && forall h | h in commit && h != gc.hash :: KeepsCommit(h, known[h])
      requires Named(gc.parents, hs) && gc.committer != Sentinel
      modifies this`commit, this`known, this`need
      ensures ValidCommits()
      ensures known == old(known)[gc.hash := hs]
      ensures need == old(need) - {gc.hash} + set q | q in hs && q !in known
    {
      commit, known := commit[gc.hash := gc], known[gc.hash := hs];
      need := need - {gc.hash};
      var i := 0;
      while i < |gc.parents|
        invariant 0 <= i <= |gc.parents|
        invariant commit == old(commit)[gc.hash := gc] && known == old(known)[gc.hash := hs]
        invariant need == old(need) - {gc.hash} + set q | q in hs[..i] && q !in commit
      {
        MarkNeededCommit(gc.parents[i].hash);
        assert hs[..i + 1] == hs[..i] + [gc.parents[i].hash];
        i := i + 1;
      }
      assert hs[..i] == hs;
    }

    /** Files a commit in the shared graph. Of this project, only its copy of that commit can change. */
    method FileInCorpus(p: CommitProto) returns (gc: GitCommit?)
      requires Valid()
      modifies corpus, corpus.Slots(p.sha1)
      ensures corpus.Valid() && corpus.graph == Install(old(corpus.graph), p)
      ensures gc != null <==> Parses(p)
      ensures gc != null ==> gc.hash == p.sha1 && gc.Holds(Filled(RecordOf(p)))
      ensures ValidCLs()
      ensures gc == null ==> ValidCommits()
      ensures forall h | h in commit && h != p.sha1 :: KeepsCommit(h, known[h])
      ensures corpus.Grew(old(corpus.gitCommit))
    {
      gc := corpus.ProcessGitCommit(p);
    }

    /** One commit of a mutation. A commit that does not parse is skipped. */
    method FileOne(p: CommitProto)
      requires Valid()
      modifies this`commit, this`known, this`need, corpus, corpus.Slots(p.sha1)
      ensures Valid()
      ensures View() == FileCommit(old(View()), p)
      ensures OnlyNewCommits()
    {
      var gc := FileInCorpus(p);
      if gc != null {
        Index(gc, RecordOf(p).parents);
      }
    }

    method FileAll(ps: seq<CommitProto>)
      requires Valid()
      modifies this`commit, this`known, this`need, corpus, corpus.objects
      ensures Valid()
      ensures View() == Exec(world.rank, old(View()), FileActions(ps))
      ensures OnlyNewCommits()
    {
      var i := 0;
      while i < |ps|
        invariant 0 <= i <= |ps|
        invariant Valid() && OnlyNewCommits()
        invariant View() == Exec(world.rank, old(View()), FileActions(ps[..i]))
      {
        FileStep(world.rank, old(View()), ps, i);
        FileOne(ps[i]);
        i := i + 1;
      }
      assert ps[..i] == ps;
    }

    method DeleteAll(names: seq<string>)
      requires Valid()
      modifies this`ref
      ensures Valid()
      ensures View() == Exec(world.rank, old(View()), DeleteActions(names))
    {
      DeletingForgets(world.rank, View(), names);
      DeleteRefs(names);
    }

    method DeleteRefs(names: seq<string>)
      modifies this`ref
      ensures ref == old(ref) - set n | n in names
    {
      for i := 0 to |names|
        invariant ref == old(ref) - set n | n in names[..i]
      {
        ref := ref - {names[i]};
        assert names[..i + 1] == names[..i] + [names[i]];
      }
      assert names[..|names|] == names;
    }

    method GetOrCreateCL(number: int) returns (cl: GerritCL)
      requires ValidCLs()
      modifies this`cls, this`views, this`clObjects
      ensures ValidCLs()
      ensures number in cls && cl == cls[number]
      ensures views == old(views)[number := GetCL(old(View()), number)]
      ensures cl in old(CLSlots(number)) || fresh(cl)
      ensures OnlyNewCLs()
    {
      if number in cls {
        cl := cls[number];
      } else {
        cl := new GerritCL(number);
        cls, clObjects := cls[number := cl], clObjects + {cl};
      }
      views := views[number := GetCL(View(), number)];
    }

    /** The CL object a change ref would update. */
    ghost function CLSlots(number: int): set<GerritCL>
      reads this
    {
      if number in cls then {cls[number]} else {}
    }

    /** Notes the new value of a CL that has just changed. */
    ghost method Note(cl: GerritCL, view: CL)
      requires cls.Keys == views.Keys && cl.number in cls && cls[cl.number] == cl && cl in clObjects && cl.Holds(view)
      requires forall n | n in cls && n != cl.number :: cls[n] in clObjects && CLOk(n, cls[n], views[n])
      modifies this`views
      ensures ValidCLs() && views == old(views)[cl.number := view]
    {
      views := views[cl.number := view];
    }

    /** Points a known CL at a meta commit (version 0) or at a patch set. */
    method PointCL(cl: GerritCL, version: int, h: Hash)
      requires ValidCLs() && cl.number in cls && cls[cl.number] == cl
      modifies this`views, cl
      ensures ValidCLs()
      ensures views == old(views)[cl.number := Pointed(old(views[cl.number]), version, h)]
    {
      assert CLOk(cl.number, cl, views[cl.number]);
      cl.Point(version, h, views[cl.number]);
      assert forall n | n in cls && n != cl.number :: old(CLOk(n, cls[n], views[n])) && cls[n] != cl;
      Note(cl, Pointed(views[cl.number], version, h));
    }

    method PointNumbered(number: int, version: int, h: Hash)
      requires ValidCLs()
      modifies this`cls, this`views, this`clObjects, CLSlots(number)
      ensures ValidCLs()
      ensures views == old(views)[number := Pointed(GetCL(old(View()), number), version, h)]
      ensures OnlyNewCLs()
    {
      var cl := GetOrCreateCL(number);
      UpdateTwice(old(views), number, views[number], Pointed(views[number], version, h));
      PointCL(cl, version, h);
    }

    method SetChangeRef(number: int, version: int, h: Hash)
      requires ValidCLs() && h in corpus.graph
      modifies this`remote, this`cls, this`views, this`clObjects, this`dirtyCL, CLSlots(number)
      ensures ValidCLs()
      ensures View() == SetRef(old(View()), Ref(ChangeRef(number, version), h))
      ensures OnlyNewCLs()
    {
      remote := remote[(number, version) := h];
      dirtyCL := if version == 0 then dirtyCL + {number} else dirtyCL;
      PointNumbered(number, version, h);
    }

    /** One ref of a mutation. */
    method SetOneRef(r: Ref)
      requires Valid()
      modifies this`ref, this`remote, this`cls, this`views, this`clObjects, this`dirtyCL
      modifies if r.name.ChangeRef? then CLSlots(r.name.number) else {}
      ensures Valid()
      ensures View() == SetRef(old(View()), r)
      ensures OnlyNewCLs()
    {
      if r.hash !in corpus.gitCommit {
        return;
      }
      match r.name {
        case BadChangeRef =>
        case ConfigRef =>
        case PlainRef(name) =>
          ref := ref[name := r.hash];
        case ChangeRef(number, version) =>
          SetChangeRef(number, version, r.hash);
      }
    }

    method SetAllRefs(refs: seq<Ref>)
      requires Valid()
      modifies this`ref, this`remote, this`cls, this`views, this`clObjects, this`dirtyCL, clObjects
      ensures Valid()
      ensures View() == Exec(world.rank, old(View()), PointActions(refs))
      ensures OnlyNewCLs()
    {
      var i := 0;
      while i < |refs|
        invariant 0 <= i <= |refs|
        invariant Valid() && OnlyNewCLs()
        invariant View() == Exec(world.rank, old(View()), PointActions(refs[..i]))
      {
        PointStep(world.rank, old(View()), refs, i);
        SetOneRef(refs[i]);
        i := i + 1;
      }
      assert refs[..i] == refs;
    }

    /** processMutation: the commits, then the deleted refs, then the refs. */
    method ProcessMutation(commits: seq<CommitProto>, deletedRefs: seq<string>, refs: seq<Ref>)
      requires Valid()
      modifies this, corpus, corpus.objects, clObjects
      ensures Valid()
      ensures View() == Exec(world.rank, old(View()), Pieces(GerritMutation(commits, deletedRefs, refs)))
      ensures OnlyNewCommits() && OnlyNewCLs()
    {
      FileAll(commits);
      DeleteAll(deletedRefs);
      SetAllRefs(refs);
      ExecAppend(world.rank, old(View()), FileActions(commits), DeleteActions(deletedRefs));
      ExecAppend(world.rank, old(View()), FileActions(commits) + DeleteActions(deletedRefs), PointActions(refs));
    }

    /** processGitMutation: a commit that is not this project's. It only fills the shared graph. */
    method ProcessGitMutation(p: CommitProto)
      requires Valid()
      requires Parses(p) && p.sha1 in commit ==> known[p.sha1] == RecordOf(p).parents
      modifies corpus, corpus.Slots(p.sha1)
      ensures Valid()
      ensures View() == Exec(world.rank, old(View()), Pieces(GitMutation(p)))
      ensures OnlyNewCommits()
    {
      ForeignIs(world.rank, View(), p);
      var gc := FileInCorpus(p);
      if gc != null && p.sha1 in commit {
        assert commit[p.sha1] in old(corpus.Slots(p.sha1)) ==> commit[p.sha1] == corpus.gitCommit[p.sha1];
        assert KeepsCommit(p.sha1, known[p.sha1]);
      }
    }

    // ---- Cleaning up ----

    /** The graph is that of the repository, so a walk down a history ends. */
    ghost predicate Sound()
      reads this, corpus
    {
      world.Valid() && GraphAgrees(world, corpus.graph)
    }

    /** The callback of finishProcessingCL: adds one meta commit to what the walk has gathered. */
    method Visit(cl: GerritCL, gc: GitCommit, gathered: Gathered, ghost seen: seq<Entry>, ghost e: Entry, ghost was: bool)
      returns (gathered': Gathered)
      requires cl.isPrivate == (was || AnyPrivate(seen))
      requires Gathers(gathered, seen) && ReadsAs(gc, e.rec) && gc.hash == e.hash
      modifies cl`isPrivate
      ensures Gathers(gathered', seen + [e])
      ensures cl.isPrivate == (was || AnyPrivate(seen + [e]))
    {
      gathered' := gathered.(metas := gathered.metas + [gc]);
      if gc.note.isPrivate {
        cl.isPrivate := true;
      }
      if gathered.status == "" {
        gathered' := gathered'.(status := gc.note.status);
      }
      if gc.note.message.Some? {
        gathered' := gathered'.(messages := gathered.messages + [gc.note.message.value]);
      }
      FirstOfAppend(seen, [e]);
      assert (seen + [e])[..|seen|] == seen;
    }

    /** foreachCommit: from head down the first parents, until the root or a merge. */
    method WalkMetas(cl: GerritCL, head: GitCommit) returns (ok: bool, gathered: Gathered)
      requires corpus.Valid() && Sound() && Entered(head)
      modifies cl`isPrivate
      ensures var w := Walk(world.rank, corpus.graph, head.hash);
              && ok == w.1.Root?
              && Gathers(gathered, w.0)
              && cl.isPrivate == (old(cl.isPrivate) || AnyPrivate(w.0))
    {
      var gc, more := head, true;
      gathered, ok := Gathered("", [], []), false;
      ghost var w := Walk(world.rank, corpus.graph, head.hash);
      ghost var seen: seq<Entry> := [];
      assert [] + w.0 == w.0;
      while more
        invariant Entered(gc) && Gathers(gathered, seen) && cl.isPrivate == (old(cl.isPrivate) || AnyPrivate(seen))
        invariant if more then Ahead(world.rank, corpus.graph, w, seen, gc.hash) else seen == w.0 && ok == w.1.Root?
        decreases more, world.rank(gc.hash)
      {
        more, ok, gc, gathered, seen := WalkOn(cl, gc, gathered, w, seen, old(cl.isPrivate));
      }
    }

    /** One commit of the walk. */
    method WalkOn(cl: GerritCL, gc: GitCommit, gathered: Gathered, ghost w: (seq<Entry>, WalkEnd), ghost seen: seq<Entry>, ghost was: bool)
      returns (more: bool, ok: bool, next: GitCommit, gathered': Gathered, ghost seen': seq<Entry>)
      requires corpus.Valid() && Sound() && Entered(gc) && Ahead(world.rank, corpus.graph, w, seen, gc.hash)
      requires Gathers(gathered, seen) && cl.isPrivate == (was || AnyPrivate(seen))
      modifies cl`isPrivate
      ensures Entered(next) && Gathers(gathered', seen') && cl.isPrivate == (was || AnyPrivate(seen'))
      ensures if more then world.rank(next.hash) < world.rank(gc.hash) && Ahead(world.rank, corpus.graph, w, seen', next.hash)
              else seen' == w.0 && ok == w.1.Root?
    {
      ghost var e := Entry(gc.hash, RecordAt(corpus.graph, gc.hash));
      assert corpus.EntryOk(gc.hash, gc);
      gathered' := Visit(cl, gc, gathered, seen, e, was);
      more, ok, next, seen' := |gc.parents| == 1, |gc.parents| == 0, gc, seen + [e];
      if more {
        next := OnlyParent(gc);
        WalksOn(world, corpus.graph, w, seen, gc.hash, next.hash);
      }
    }

    /** The entry of the only parent, which is always found. */
    method OnlyParent(gc: GitCommit) returns (parent: GitCommit)
      requires corpus.Valid() && Entered(gc) && |gc.parents| == 1
      ensures Entered(parent) && RecordAt(corpus.graph, gc.hash).parents == [parent.hash]
    {
      assert corpus.EntryOk(gc.hash, gc);
      parent := corpus.gitCommit[gc.parents[0].hash];
    }

    ghost predicate Entered(gc: GitCommit)
      reads corpus
    {
      gc.hash in corpus.gitCommit && gc.hash in corpus.graph && corpus.gitCommit[gc.hash] == gc
    }

    /** finishProcessingCL for a CL whose meta ref is set. */
    method FinishProcessingCL(cl: GerritCL, ghost view: CL)
      requires corpus.Valid() && Sound() && cl.Holds(view) && view.meta.Some?
      modifies cl
      ensures cl.Holds(FinishCL(world.rank, corpus.graph, view))
      ensures Linear(world.rank, corpus.graph, view.meta.value) ==> cl.Tells(world.rank, corpus.graph, view)
    {
      if Linear(world.rank, corpus.graph, view.meta.value) {
        CleanUpLaw(world.rank, corpus.graph, view);
      }
      if cl.meta.value in corpus.gitCommit {
        ghost var es := Walk(world.rank, corpus.graph, cl.meta.value).0;
        var ok, gathered := WalkMetas(cl, corpus.gitCommit[cl.meta.value]);
        if ok {
          cl.SetDerived(gathered, es, view);
        }
      }
    }

    method FinishOne(n: int)
      requires corpus.Valid() && ValidCLs() && Sound() && n in cls && views[n].meta.Some?
      modifies this`views, cls[n]
      ensures ValidCLs()
      ensures views == old(views)[n := FinishCL(world.rank, corpus.graph, old(views[n]))]
    {
      var cl := cls[n];
      assert CLOk(n, cl, views[n]);
      FinishProcessingCL(cl, views[n]);
      assert forall k | k in cls && k != n :: old(CLOk(k, cls[k], views[k])) && cls[k] != cl;
      Note(cl, FinishCL(world.rank, corpus.graph, views[n]));
    }

    method FinishNext(n: int, ghost s: State, ghost done: set<int>)
      requires corpus.Valid() && ValidCLs() && Sound() && n in s.cls && n !in done && s.cls[n].meta.Some?
      requires s.graph == corpus.graph && views == FinishSome(world.rank, s, done)
      modifies this`views, clObjects
      ensures ValidCLs() && views == FinishSome(world.rank, s, done + {n})
    {
      FinishSomeStep(world.rank, s, done, n);
      FinishOne(n);
    }

    /** The loop of finishProcessing: every dirty CL, in any order. */
    method FinishDirty()
      requires corpus.Valid() && ValidCLs() && Sound() && DirtyHaveMeta()
      modifies this`views, clObjects
      ensures ValidCLs()
      ensures views == FinishSome(world.rank, old(View()), dirtyCL)
    {
      ghost var s, done := View(), {};
      var todo := dirtyCL;
      NothingFinished(world.rank, s);
      while todo != {}
        invariant done + todo == dirtyCL && done !! todo
        invariant ValidCLs() && views == FinishSome(world.rank, s, done)
        decreases todo
      {
        NonEmpty(todo);
        var n :| n in todo;
        FinishNext(n, s, done);
        todo, done := todo - {n}, done + {n};
      }
      assert done == dirtyCL;
    }

    /** finishProcessing. */
    method FinishProcessing()
      requires Valid() && Sound() && DirtyHaveMeta()
      modifies this`views, this`dirtyCL, clObjects
      ensures Valid() && DirtyHaveMeta()
      ensures View() == FinishAll(world.rank, old(View()))
    {
      FinishDirty();
      dirtyCL := {};
    }

    /** noteDirtyCL is only called on a CL whose meta ref has been set. */
    ghost predicate DirtyHaveMeta()
      reads this
    {
      forall n | n in dirtyCL :: n in views && views[n].meta.Some?
    }
  }

  /** The walk w has seen the entries and goes on from h. */
  ghost predicate Ahead(rank: Hash -> nat, g: Graph, w: (seq<Entry>, WalkEnd), seen: seq<Entry>, h: Hash) {
    h in g && w == (seen + Walk(rank, g, h).0, Walk(rank, g, h).1)
  }

  lemma WalksOn(w: World, g: Graph, walk: (seq<Entry>, WalkEnd), seen: seq<Entry>, h: Hash, q: Hash)
    requires w.Valid() && GraphAgrees(w, g) && h in g && q in g && RecordAt(g, h).parents == [q] && Ahead(w.rank, g, walk, seen, h)
    ensures w.rank(q) < w.rank(h) && Ahead(w.rank, g, walk, seen + [Entry(h, RecordAt(g, h))], q)
  {
    WalkStep(w, g, h, q);
    AppendAssoc(seen, [Entry(h, RecordAt(g, h))], Walk(w.rank, g, q).0);
  }

  /** The CLs after those in ns have been cleaned up. */
  ghost function FinishSome(rank: Hash -> nat, s: State, ns: set<int>): map<int, CL> {
    map n | n in s.cls :: if n in ns then FinishCL(rank, s.graph, s.cls[n]) else s.cls[n]
  }

  lemma NothingFinished(rank: Hash -> nat, s: State)
    ensures FinishSome(rank, s, {}) == s.cls
  {
  }

  lemma UpdateTwice(views: map<int, CL>, n: int, a: CL, b: CL)
    ensures views[n := a][n := b] == views[n := b]
  {
  }

  lemma FinishSomeStep(rank: Hash -> nat, s: State, ns: set<int>, n: int)
    requires n in s.cls && n !in ns
    ensures n in FinishSome(rank, s, ns) && FinishSome(rank, s, ns)[n] == s.cls[n]
    ensures FinishSome(rank, s, ns)[n := FinishCL(rank, s.graph, s.cls[n])] == FinishSome(rank, s, ns + {n})
  {
  }
}
