/**
 One Gerrit project of the corpus as a value, and what each piece of a mutation and
 each clean-up pass does to it (maintner/gerrit.go, maintner/maintner.go).
 */
module GerritSpec {
  import opened Basics
  import opened Git

  /** A ref name as the code's patterns read it. Version 0 of a change is its "meta" branch. */
  datatype RefName =
    | ChangeRef(number: int, version: int)
    | BadChangeRef
    | ConfigRef
    | PlainRef(name: string)

  datatype Ref = Ref(name: RefName, hash: Hash)

  datatype Mutation =
    | GerritMutation(commits: seq<CommitProto>, deletedRefs: seq<string>, refs: seq<Ref>)
    | GitMutation(commit: CommitProto)

  /** GerritCL. Meta commits are given by name. */
  datatype CL = CL(
    meta: Option<Hash>, commit: Option<Hash>, version: int,
    metas: seq<Hash>, messages: seq<string>, status: string, branch: string, created: int, isPrivate: bool)

  const NEW_CL := CL(None, None, 0, [], [], "", "", ZERO_TIME, false)

  datatype State = State(
    graph: Graph,
    commit: map<Hash, seq<Hash>>,
    need: set<Hash>,
    remote: map<(int, int), Hash>,
    ref: map<string, Hash>,
    cls: map<int, CL>,
    dirty: set<int>)

  const EMPTY_STATE := State(map[], map[], {}, map[], map[], map[], {})

  // ---- Processing a mutation ----

  /** One commit of a Gerrit mutation. */
  function FileCommit(s: State, p: CommitProto): State {
    var s' := s.(graph := Install(s.graph, p));
    if !Parses(p) then s'
    else
      var parents := RecordOf(p).parents;
      var commit := s.commit[p.sha1 := parents];
      s'.(commit := commit, need := s.need - {p.sha1} + set q | q in parents && q !in commit)
  }

  function GetCL(s: State, number: int): CL {
    if number in s.cls then s.cls[number] else NEW_CL
  }

  /** The CL after one of its refs has moved. Its other fields wait for the clean-up. */
  function Pointed(cl: CL, version: int, h: Hash): CL {
    if version == 0 then cl.(meta := Some(h)) else cl.(commit := Some(h), version := version)
  }

  /** One ref of a Gerrit mutation. A ref to a name the corpus has never heard of is ignored. */
  function SetRef(s: State, r: Ref): State {
    if r.hash !in s.graph then s
    else
      match r.name
      case BadChangeRef => s
      case ConfigRef => s
      case PlainRef(name) => s.(ref := s.ref[name := r.hash])
      case ChangeRef(number, version) =>
        s.(remote := s.remote[(number, version) := r.hash],
           cls := s.cls[number := Pointed(GetCL(s, number), version, r.hash)],
           dirty := if version == 0 then s.dirty + {number} else s.dirty)
  }

  // ---- Cleaning up after mutations ----

  datatype Entry = Entry(hash: Hash, rec: Record)

  /** How a walk down a meta branch ends. Loops: the history has a cycle and the walk never returns. */
  datatype WalkEnd = Root | TooManyParents | ParentUnknown | Loops

  /** The record of an entry of the graph; a placeholder reads as an empty commit. */
  function RecordAt(g: Graph, h: Hash): Record
    requires h in g
  {
    match g[h]
    case Filled(rec) => rec
    case Missing => Record([], None, EMPTY_NOTE)
  }

  /** The commits a walk from h visits, newest first. */
  function Walk(rank: Hash -> nat, g: Graph, h: Hash): (r: (seq<Entry>, WalkEnd))
    requires h in g
    ensures r.0 != []
    decreases rank(h)
  {
    var rec := RecordAt(g, h);
    var e := Entry(h, rec);
    if rec.parents == [] then ([e], Root)
    else if |rec.parents| > 1 then ([e], TooManyParents)
    else if rec.parents[0] !in g then ([e], ParentUnknown)
    else if rank(rec.parents[0]) >= rank(h) then ([e], Loops)
    else
      var rest := Walk(rank, g, rec.parents[0]);
      ([e] + rest.0, rest.1)
  }

  function FirstStatus(es: seq<Entry>): string {
    if es == [] then ""
    else if es[0].rec.note.status != "" then es[0].rec.note.status
    else FirstStatus(es[1..])
  }

  function FirstBranch(es: seq<Entry>): Option<string> {
    if es == [] then None
    else if es[0].rec.note.branch.Some? then es[0].rec.note.branch
    else FirstBranch(es[1..])
  }

  lemma {:induction false} FirstOfAppend(newer: seq<Entry>, older: seq<Entry>)
    ensures FirstStatus(newer + older) == if FirstStatus(newer) != "" then FirstStatus(newer) else FirstStatus(older)
    ensures FirstBranch(newer + older) == if FirstBranch(newer).Some? then FirstBranch(newer) else FirstBranch(older)
  {
    if newer == [] {
      assert newer + older == older;
    } else {
      assert (newer + older)[1..] == newer[1..] + older;
      FirstOfAppend(newer[1..], older);
    }
  }

  predicate AnyPrivate(es: seq<Entry>) {
    exists e | e in es :: e.rec.note.isPrivate
  }

  /** The messages of the commits, in the order of the commits. */
  function MessagesOf(es: seq<Entry>): seq<string> {
    if es == [] then []
    else
      var rest := MessagesOf(es[..|es| - 1]);
      match es[|es| - 1].rec.note.message
      case None => rest
      case Some(m) => rest + [m]
  }

  function HashesOfEntries(es: seq<Entry>): (r: seq<Hash>)
    ensures |r| == |es|
    ensures forall i :: 0 <= i < |es| ==> r[i] == es[i].hash
  {
    seq(|es|, i requires 0 <= i < |es| => es[i].hash)
  }

  function CommitTime(rec: Record): int {
    match rec.committer
    case None => ZERO_TIME
    case Some(p) => p.time
  }

  /** The fields a complete walk over es (newest first) leaves on the CL. */
  function Derive(es: seq<Entry>, cl: CL): CL
    requires es != []
  {
    var status := FirstStatus(es);
    var branch := FirstBranch(es);
    cl.(
      isPrivate := cl.isPrivate || AnyPrivate(es),
      status := if status != "" then status else if cl.status == "" then "new" else cl.status,
      messages := Reversed(MessagesOf(es)),
      metas := Reversed(HashesOfEntries(es)),
      created := CommitTime(es[|es| - 1].rec),
      branch := if branch.Some? then branch.value else cl.branch)
  }

  /** finishProcessingCL. A walk that fails may still have marked the CL private. */
  function FinishCL(rank: Hash -> nat, g: Graph, cl: CL): CL {
    if cl.meta.None? || cl.meta.value !in g then cl
    else
      var w := Walk(rank, g, cl.meta.value);
      if w.1.Root? then Derive(w.0, cl) else cl.(isPrivate := cl.isPrivate || AnyPrivate(w.0))
  }

  function FinishAll(rank: Hash -> nat, s: State): State {
    s.(cls := map n | n in s.cls :: if n in s.dirty then FinishCL(rank, s.graph, s.cls[n]) else s.cls[n],
       dirty := {})
  }

  // ---- Runs ----

  /** What can happen to the project: a piece of a mutation, or a clean-up pass. */
  datatype Action =
    | FileIt(commit: CommitProto)
    | FileForeign(commit: CommitProto)
    | DeleteRef(name: string)
    | Point(ref: Ref)
    | Finish

  function Do(rank: Hash -> nat, s: State, a: Action): State {
    match a
    case FileIt(p) => FileCommit(s, p)
    case FileForeign(p) => s.(graph := Install(s.graph, p))
    case DeleteRef(name) => s.(ref := s.ref - {name})
    case Point(r) => SetRef(s, r)
    case Finish => FinishAll(rank, s)
  }

  function Exec(rank: Hash -> nat, s: State, actions: seq<Action>): State {
    if actions == [] then s
    else Do(rank, Exec(rank, s, actions[..|actions| - 1]), actions[|actions| - 1])
  }

  lemma {:induction false} ExecAppend(rank: Hash -> nat, s: State, a: seq<Action>, b: seq<Action>)
    ensures Exec(rank, s, a + b) == Exec(rank, Exec(rank, s, a), b)
  {
    if b == [] {
      assert a + b == a;
    } else {
      ExecAppend(rank, s, a, b[..|b| - 1]);
      assert (a + b)[..|a + b| - 1] == a + b[..|b| - 1];
    }
  }

  function FileActions(ps: seq<CommitProto>): seq<Action> {
    if ps == [] then [] else FileActions(ps[..|ps| - 1]) + [FileIt(ps[|ps| - 1])]
  }

  function DeleteActions(names: seq<string>): seq<Action> {
    if names == [] then [] else DeleteActions(names[..|names| - 1]) + [DeleteRef(names[|names| - 1])]
  }

  function PointActions(refs: seq<Ref>): seq<Action> {
    if refs == [] then [] else PointActions(refs[..|refs| - 1]) + [Point(refs[|refs| - 1])]
  }

  lemma {:induction false} DeletingForgets(rank: Hash -> nat, s: State, names: seq<string>)
    ensures Exec(rank, s, DeleteActions(names)) == s.(ref := s.ref - set n | n in names)
  {
    if names == [] {
      assert s.ref - (set n | n in names) == s.ref;
    } else {
      var init, last := names[..|names| - 1], names[|names| - 1];
      DeletingForgets(rank, s, init);
      assert names == init + [last];
      assert DeleteActions(names)[..|DeleteActions(init)|] == DeleteActions(init);
      assert s.ref - (set n | n in init) - {last} == s.ref - set n | n in names;
    }
  }

  lemma PointMore(rank: Hash -> nat, s: State, refs: seq<Ref>)
    requires refs != []
    ensures var init, last := refs[..|refs| - 1], refs[|refs| - 1];
            Exec(rank, s, PointActions(refs)) == SetRef(Exec(rank, s, PointActions(init)), last)
  {
    var init := refs[..|refs| - 1];
    assert PointActions(refs)[..|PointActions(init)|] == PointActions(init);
  }

  lemma FileMore(rank: Hash -> nat, s: State, ps: seq<CommitProto>)
    requires ps != []
    ensures Exec(rank, s, FileActions(ps)) == FileCommit(Exec(rank, s, FileActions(ps[..|ps| - 1])), ps[|ps| - 1])
  {
    var before := ps[..|ps| - 1];
    assert FileActions(ps)[..|FileActions(before)|] == FileActions(before);
  }

  lemma PointStep(rank: Hash -> nat, s: State, refs: seq<Ref>, i: nat)
    requires i < |refs|
    ensures Exec(rank, s, PointActions(refs[..i + 1])) == SetRef(Exec(rank, s, PointActions(refs[..i])), refs[i])
  {
    PointMore(rank, s, refs[..i + 1]);
    assert refs[..i + 1][..i] == refs[..i];
  }

  lemma FileStep(rank: Hash -> nat, s: State, ps: seq<CommitProto>, i: nat)
    requires i < |ps|
    ensures Exec(rank, s, FileActions(ps[..i + 1])) == FileCommit(Exec(rank, s, FileActions(ps[..i])), ps[i])
  {
    FileMore(rank, s, ps[..i + 1]);
    assert ps[..i + 1][..i] == ps[..i];
  }

  lemma ForeignIs(rank: Hash -> nat, s: State, p: CommitProto)
    ensures Exec(rank, s, Pieces(GitMutation(p))) == s.(graph := Install(s.graph, p))
  {
    assert [FileForeign(p)][..0] == [];
  }

  /** A mutation in pieces: its commits, then its deleted refs, then its refs. */
  function Pieces(m: Mutation): seq<Action> {
    match m
    case GitMutation(p) => [FileForeign(p)]
    case GerritMutation(commits, deletedRefs, refs) =>
      FileActions(commits) + DeleteActions(deletedRefs) + PointActions(refs)
  }

  lemma {:induction false} ActionsOf(ps: seq<CommitProto>, names: seq<string>, refs: seq<Ref>)
    ensures forall a :: a in FileActions(ps) <==> a.FileIt? && a.commit in ps
    ensures forall a :: a in DeleteActions(names) <==> a.DeleteRef? && a.name in names
    ensures forall a :: a in PointActions(refs) <==> a.Point? && a.ref in refs
    decreases |ps| + |names| + |refs|
  {
    if ps != [] {
      ActionsOf(ps[..|ps| - 1], names, refs);
      assert ps == ps[..|ps| - 1] + [ps[|ps| - 1]];
    } else if names != [] {
      ActionsOf(ps, names[..|names| - 1], refs);
      assert names == names[..|names| - 1] + [names[|names| - 1]];
    } else if refs != [] {
      ActionsOf(ps, names, refs[..|refs| - 1]);
      assert refs == refs[..|refs| - 1] + [refs[|refs| - 1]];
    }
  }

  /** The leader cleans up after every mutation it adds to the log. */
  function LeaderActions(log: seq<Mutation>): seq<Action> {
    if log == [] then []
    else LeaderActions(log[..|log| - 1]) + Pieces(log[|log| - 1]) + [Finish]
  }

  /** All the pieces of a log, with no clean-up. */
  function LogActions(log: seq<Mutation>): seq<Action> {
    if log == [] then [] else LogActions(log[..|log| - 1]) + Pieces(log[|log| - 1])
  }

  /** A follower cleans up once, when it has read the whole log. */
  function FollowerActions(log: seq<Mutation>): seq<Action> {
    LogActions(log) + [Finish]
  }

  // ---- The repository behind the log ----

  /**
   The repository behind the log: the one content of every name (git is content-addressed),
   and a rank that falls along parents (so no history has a cycle).
   */
  datatype World = World(content: Hash -> Record, rank: Hash -> nat) {
    ghost predicate Valid() {
      forall h, q {:trigger q in content(h).parents} :: q in content(h).parents ==> rank(q) < rank(h)
    }
  }

  /** a is h, or a commit above h. */
  ghost predicate IsAncestor(w: World, a: Hash, h: Hash)
    requires w.Valid()
    decreases w.rank(h)
  {
    a == h || exists q | q in w.content(h).parents :: IsAncestor(w, a, q)
  }

  lemma {:induction false} AncestorTrans(w: World, a: Hash, b: Hash, c: Hash)
    requires w.Valid() && IsAncestor(w, a, b) && IsAncestor(w, b, c)
    ensures IsAncestor(w, a, c)
    decreases w.rank(c)
  {
    if b != c {
      var q :| q in w.content(c).parents && IsAncestor(w, b, q);
      AncestorTrans(w, a, b, q);
    }
  }

  ghost predicate GraphAgrees(w: World, g: Graph) {
    forall h | h in g && g[h].Filled? :: g[h].rec == w.content(h)
  }

  ghost predicate Addressed(w: World, a: Action) {
    (a.FileIt? || a.FileForeign?) && Parses(a.commit) ==> RecordOf(a.commit) == w.content(a.commit.sha1)
  }

  /** In the graph of a repository a walk goes on to the only parent, which ranks lower. */
  lemma WalkStep(w: World, g: Graph, h: Hash, q: Hash)
    requires w.Valid() && GraphAgrees(w, g) && h in g && q in g && RecordAt(g, h).parents == [q]
    ensures w.rank(q) < w.rank(h)
    ensures Walk(w.rank, g, h) == ([Entry(h, RecordAt(g, h))] + Walk(w.rank, g, q).0, Walk(w.rank, g, q).1)
  {
    assert q in w.content(h).parents;
  }

  // ---- The worklist of commits to fetch ----

  /** need never holds a known commit, and it holds every unknown parent of a known commit. */
  ghost predicate Worklist(s: State) {
    && s.need !! s.commit.Keys
    && forall h, q | h in s.commit && q in s.commit[h] :: q in s.commit || q in s.need
  }

  lemma DoKeepsWorklist(rank: Hash -> nat, s: State, a: Action)
    requires Worklist(s)
    ensures Worklist(Do(rank, s, a))
  {
    if a.FileIt? {
      var s' := FileCommit(s, a.commit);
      forall h, q | h in s'.commit && q in s'.commit[h] ensures q in s'.commit || q in s'.need {
      }
    }
  }

  /** Every run keeps the worklist, whatever commits and refs it is fed. */
  lemma {:induction false} RunKeepsWorklist(rank: Hash -> nat, s: State, actions: seq<Action>)
    requires Worklist(s)
    ensures Worklist(Exec(rank, s, actions))
  {
    if actions != [] {
      RunKeepsWorklist(rank, s, actions[..|actions| - 1]);
      DoKeepsWorklist(rank, Exec(rank, s, actions[..|actions| - 1]), actions[|actions| - 1]);
    }
  }

  // ---- What every run over a repository's own commits keeps ----

  /** The state only holds the repository's commits, and every dirty CL has a meta ref. */
  ghost predicate Consistent(w: World, s: State) {
    && GraphAgrees(w, s.graph)
    && (forall h | h in s.commit :: s.commit[h] == w.content(h).parents)
    && (forall n | n in s.dirty :: n in s.cls && s.cls[n].meta.Some?)
  }

  lemma DoKeepsConsistent(w: World, s: State, a: Action)
    requires Consistent(w, s) && Addressed(w, a)
    ensures Consistent(w, Do(w.rank, s, a))
  {
    match a
    case FileIt(p) => FilingKeepsConsistent(w, s, p);
    case FileForeign(p) => InstallAgrees(w, s.graph, p);
    case DeleteRef(_) =>
    case Point(r) => PointKeepsConsistent(w, s, r);
    case Finish => FinishKeepsConsistent(w, s);
  }

  lemma InstallAgrees(w: World, g: Graph, p: CommitProto)
    requires GraphAgrees(w, g) && (Parses(p) ==> RecordOf(p) == w.content(p.sha1))
    ensures GraphAgrees(w, Install(g, p))
    ensures forall h | h in g && g[h].Filled? :: h in Install(g, p) && Install(g, p)[h].Filled?
    ensures Parses(p) ==> p.sha1 in Install(g, p) && Install(g, p)[p.sha1].Filled?
  {
  }

  lemma FilingKeepsConsistent(w: World, s: State, p: CommitProto)
    requires Consistent(w, s) && (Parses(p) ==> RecordOf(p) == w.content(p.sha1))
    ensures Consistent(w, FileCommit(s, p))
  {
    InstallAgrees(w, s.graph, p);
  }

  lemma PointKeepsConsistent(w: World, s: State, r: Ref)
    requires Consistent(w, s)
    ensures Consistent(w, SetRef(s, r))
  {
  }

  lemma FinishKeepsConsistent(w: World, s: State)
    requires Consistent(w, s)
    ensures Consistent(w, FinishAll(w.rank, s))
  {
  }

  lemma {:induction false} RunKeepsConsistent(w: World, s: State, actions: seq<Action>)
    requires Consistent(w, s) && forall a | a in actions :: Addressed(w, a)
    ensures Consistent(w, Exec(w.rank, s, actions))
  {
    if actions != [] {
      RunKeepsConsistent(w, s, actions[..|actions| - 1]);
      DoKeepsConsistent(w, Exec(w.rank, s, actions[..|actions| - 1]), actions[|actions| - 1]);
    }
  }

  ghost predicate AddressedMutation(w: World, m: Mutation) {
    match m
    case GitMutation(p) => Parses(p) ==> RecordOf(p) == w.content(p.sha1)
    case GerritMutation(commits, _, _) => forall p | p in commits && Parses(p) :: RecordOf(p) == w.content(p.sha1)
  }

  lemma AddressedPieces(w: World, m: Mutation)
    requires AddressedMutation(w, m)
    ensures forall a | a in Pieces(m) :: Addressed(w, a)
  {
    if m.GerritMutation? {
      ActionsOf(m.commits, m.deletedRefs, m.refs);
    }
  }
}
