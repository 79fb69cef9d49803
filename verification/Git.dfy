/**
 The commit graph of maintner/git.go: commits arrive in any order, a parent that has
 not arrived yet is a placeholder object, and the placeholder is filled in place.
 */
module Git {
  import opened Basics

  /** A git object name. The code compares names and never looks inside them. */
  type Hash = nat

  datatype Person = Person(name: string, time: int)

  /**
   What the Gerrit code reads out of the text of a commit message. The branch is what a Branch line
   names, without refs/heads/.
   */
  datatype Note = Note(isPrivate: bool, status: string, branch: Option<string>, message: Option<string>)

  const EMPTY_NOTE := Note(false, "", None, None)

  datatype Record = Record(parents: seq<Hash>, committer: Option<Person>, note: Note)

  /** One line of a commit header. BadPerson is an author or committer line that does not parse. */
  datatype HeaderLine =
    | Parent(hash: Hash)
    | Committer(person: Person)
    | BadPerson
    | OtherLine

  /** A logged commit. `framed` says that the name has 40 digits and the raw text has a header. */
  datatype CommitProto = CommitProto(framed: bool, sha1: Hash, header: seq<HeaderLine>, note: Note)

  datatype Slot = Missing | Filled(rec: Record)

  type Graph = map<Hash, Slot>

  // ---- What one logged commit means ----

  function ParentsOf(header: seq<HeaderLine>): seq<Hash> {
    if header == [] then []
    else
      var rest := ParentsOf(header[..|header| - 1]);
      match header[|header| - 1]
      case Parent(h) => rest + [h]
      case _ => rest
  }

  function CommitterOf(header: seq<HeaderLine>): Option<Person> {
    if header == [] then None
    else
      match header[|header| - 1]
      case Committer(p) => Some(p)
      case _ => CommitterOf(header[..|header| - 1])
  }

  predicate Parses(p: CommitProto) {
    p.framed && BadPerson !in p.header
  }

  /** The header up to the first line that does not parse: the part the code gets to read. */
  function Readable(header: seq<HeaderLine>): (r: seq<HeaderLine>)
    ensures r <= header
    ensures BadPerson !in r
    ensures r != header ==> |r| < |header| && header[|r|] == BadPerson
  {
    if header == [] then []
    else
      var rest := Readable(header[..|header| - 1]);
      if |rest| == |header| - 1 && header[|header| - 1] != BadPerson then header else rest
  }

  function RecordOf(p: CommitProto): Record {
    Record(ParentsOf(p.header), CommitterOf(p.header), p.note)
  }

  /** The parents a logged commit mentions, whether or not the rest of it parses. */
  function Mentioned(p: CommitProto): seq<Hash> {
    if p.framed then ParentsOf(Readable(p.header)) else []
  }

  /** The graph with a placeholder for every name in hs that it did not hold. */
  function AddPlaceholders(g: Graph, hs: seq<Hash>): (r: Graph)
    ensures r.Keys == g.Keys + (set h | h in hs)
  {
    map h | h in g.Keys + (set x | x in hs) :: if h in g then g[h] else Missing
  }

  /** The graph after one logged commit has been processed. */
  function Install(g: Graph, p: CommitProto): Graph {
    var g' := AddPlaceholders(g, Mentioned(p));
    if Parses(p) then g'[p.sha1 := Filled(RecordOf(p))] else g'
  }

  // ---- The objects ----

  /** GitCommit.Committer: Sentinel is the placeholderCommitter pointer. */
  datatype CommitterField = NoCommitter | Sentinel | Known(person: Person)

  function FieldOf(c: Option<Person>): CommitterField {
    match c
    case None => NoCommitter
    case Some(p) => Known(p)
  }

  class GitCommit {
    const hash: Hash
    var parents: seq<GitCommit>
    var committer: CommitterField
    var note: Note

    constructor (hash: Hash, parents: seq<GitCommit>, committer: CommitterField, note: Note)
      ensures this.hash == hash && this.parents == parents
      ensures this.committer == committer && this.note == note
    {
      this.hash := hash;
      this.parents := parents;
      this.committer := committer;
      this.note := note;
    }

    /** The object holds the commit (or is the placeholder) that the slot describes. */
    ghost predicate Holds(slot: Slot)
      reads this
    {
      match slot
      case Missing => committer == Sentinel && parents == [] && note == EMPTY_NOTE
      case Filled(rec) => committer == FieldOf(rec.committer) && note == rec.note && Named(parents, rec.parents)
    }
  }

  /** The commits of cs have the names hs, in order. */
  ghost predicate Named(cs: seq<GitCommit>, hs: seq<Hash>) {
    |cs| == |hs| && forall i :: 0 <= i < |cs| ==> cs[i].hash == hs[i]
  }

  class Corpus {
    var gitCommit: map<Hash, GitCommit>
    ghost var graph: Graph  // the contents of gitCommit as a value
    ghost var objects: set<GitCommit>  // the objects in gitCommit

    constructor ()
      ensures gitCommit == map[] && graph == map[] && Valid()
    {
      gitCommit, graph, objects := map[], map[], {};
    }

    /** Every entry is filed under its own name, and every parent pointer is the entry of that name. */
    ghost predicate Valid()
      reads this, objects
    {
      && gitCommit.Keys == graph.Keys
      && (forall h | h in gitCommit :: gitCommit[h] in objects && EntryOk(h, gitCommit[h]))
    }

    ghost predicate EntryOk(h: Hash, gc: GitCommit)
      requires h in graph
      reads this, gc
    {
      gc.hash == h && gc.Holds(graph[h]) && Owns(gc.parents)
    }

    ghost predicate Owns(cs: seq<GitCommit>)
      reads this
    {
      forall i | 0 <= i < |cs| :: cs[i].hash in gitCommit && gitCommit[cs[i].hash] == cs[i]
    }

    /** Entries of m are still there, with the same identity, and all others are new objects. */
    twostate predicate Grew(m: map<Hash, GitCommit>)
      reads this
    {
      && (forall k | k in m :: k in gitCommit && gitCommit[k] == m[k])
      && (forall k | k in gitCommit && k !in m :: fresh(gitCommit[k]))
      && fresh(objects - old(objects))
    }

    /** The object `*ph = *gc` would overwrite. */
    ghost function Slots(h: Hash): set<GitCommit>
      reads this
    {
      if h in gitCommit then {gitCommit[h]} else {}
    }

    /** A parent line: the entry of that name, which becomes a placeholder if there was none. */
    method ParentEntry(h: Hash) returns (parent: GitCommit)
      requires Valid()
      modifies this
      ensures Valid()
      ensures Owns([parent]) && parent.hash == h
      ensures graph == AddPlaceholders(old(graph), [h])
      ensures Grew(old(gitCommit))
    {
      OnePlaceholder(graph, h);
      if h in gitCommit {
        parent := gitCommit[h];
      } else {
        parent := new GitCommit(h, [], Sentinel, EMPTY_NOTE);
        gitCommit, objects, graph := gitCommit[h := parent], objects + {parent}, graph[h := Missing];
      }
    }

    /** One more parent of a commit. */
    method AddParent(parents: seq<GitCommit>, h: Hash, ghost g: Graph, ghost hs: seq<Hash>) returns (parents': seq<GitCommit>)
      requires Valid() && Owns(parents) && Named(parents, hs) && graph == AddPlaceholders(g, hs)
      modifies this
      ensures Valid() && Owns(parents') && Named(parents', hs + [h]) && graph == AddPlaceholders(g, hs + [h])
      ensures Grew(old(gitCommit))
    {
      PlaceholdersCompose(g, hs, h);
      var parent := ParentEntry(h);
      assert [parent][0] == parent;
      parents' := parents + [parent];
    }

    /**
     Reads the header lines up to the first that does not parse, finding or making the
     entry of every parent. No commit object that existed before is changed.
     */
    method ReadHeader(header: seq<HeaderLine>)
      returns (ok: bool, parents: seq<GitCommit>, committer: CommitterField)
      requires Valid()
      modifies this
      ensures Valid()
      ensures ok <==> BadPerson !in header
      ensures ok ==> Owns(parents) && Named(parents, ParentsOf(header))
      ensures ok ==> committer == FieldOf(CommitterOf(header))
      ensures graph == AddPlaceholders(old(graph), ParentsOf(Readable(header)))
      ensures Grew(old(gitCommit))
    {
      ok, parents, committer := true, [], NoCommitter;
      var i := 0;
      while i < |header|
        invariant 0 <= i <= |header|
        invariant BadPerson !in header[..i]
        invariant Valid() && Owns(parents) && ok
        invariant Named(parents, ParentsOf(header[..i]))
        invariant committer == FieldOf(CommitterOf(header[..i]))
        invariant graph == AddPlaceholders(old(graph), ParentsOf(header[..i]))
        invariant Grew(old(gitCommit))
      {
        HeaderMore(header, i);
        match header[i] {
          case Parent(h) =>
            parents := AddParent(parents, h, old(graph), ParentsOf(header[..i]));
          case Committer(person) =>
            committer := Known(person);
          case BadPerson =>
            ReadableIs(header, i);
            ok := false;
            return;
          case OtherLine =>
        }
        i := i + 1;
      }
      assert header[..i] == header;
      ReadableIs(header, i);
    }

    /**
     Files one logged commit. On an unparseable header the placeholders of the parents
     read so far stay. Existing entries keep their identity, so a pointer handed out
     earlier sees the filled-in commit. The result is null exactly on an error.
     */
    method ProcessGitCommit(p: CommitProto) returns (gc: GitCommit?)
      requires Valid()
      modifies this, Slots(p.sha1)
      ensures Valid()
      ensures graph == Install(old(graph), p)
      ensures gc != null <==> Parses(p)
      ensures gc != null ==> gc.hash == p.sha1 && gc.Holds(Filled(RecordOf(p))) && Owns(gc.parents) && fresh(gc)
      ensures gc == null ==> forall c | c in old(Slots(p.sha1)) :: unchanged(c)
      ensures Grew(old(gitCommit))
    {
      if !p.framed {
        assert graph == Install(graph, p);
        return null;
      }
      var ok, parents, committer := ReadHeader(p.header);
      if !ok {
        return null;
      }
      ReadableIs(p.header, |p.header|);
      gc := new GitCommit(p.sha1, parents, committer, p.note);
      File(gc, RecordOf(p));
    }

    /** Fills the entry of gc's name in place, or makes gc that entry. */
    method File(gc: GitCommit, ghost rec: Record)
      requires Valid() && Owns(gc.parents) && gc !in objects && gc.Holds(Filled(rec))
      modifies this, Slots(gc.hash)
      ensures Valid() && Owns(gc.parents) && gc.Holds(Filled(rec))
      ensures graph == old(graph)[gc.hash := Filled(rec)]
      ensures forall k | k in old(gitCommit) :: k in gitCommit && gitCommit[k] == old(gitCommit[k])
      ensures forall k | k in gitCommit && k !in old(gitCommit) :: gitCommit[k] == gc
      ensures objects <= old(objects) + {gc}
    {
      if gc.hash in gitCommit {
        Overwrite(gitCommit[gc.hash], gc, rec);
      } else {
        gitCommit, objects := gitCommit[gc.hash := gc], objects + {gc};
        graph := graph[gc.hash := Filled(rec)];
      }
    }

    /** Go's `*ph = *gc`. */
    method Overwrite(ph: GitCommit, gc: GitCommit, ghost rec: Record)
      requires Valid() && Owns([ph]) && Owns(gc.parents) && gc.Holds(Filled(rec)) && gc.hash == ph.hash && gc != ph
      modifies this`graph, ph
      ensures Valid()
      ensures graph == old(graph)[ph.hash := Filled(rec)]
    {
      assert [ph][0] == ph;
      ph.parents, ph.committer, ph.note := gc.parents, gc.committer, gc.note;
      graph := graph[ph.hash := Filled(rec)];
    }
  }

  lemma HeaderMore(header: seq<HeaderLine>, i: nat)
    requires i < |header|
    ensures ParentsOf(header[..i + 1]) == ParentsOf(header[..i]) + if header[i].Parent? then [header[i].hash] else []
    ensures CommitterOf(header[..i + 1]) == if header[i].Committer? then Some(header[i].person) else CommitterOf(header[..i])
    ensures BadPerson in header[..i + 1] <==> BadPerson in header[..i] || header[i] == BadPerson
  {
    assert header[..i + 1][..i] == header[..i];
    assert header[..i + 1] == header[..i] + [header[i]];
  }

  lemma OnePlaceholder(g: Graph, h: Hash)
    ensures AddPlaceholders(g, [h]) == if h in g then g else g[h := Missing]
  {
  }

  lemma PlaceholdersCompose(g: Graph, hs: seq<Hash>, h: Hash)
    ensures AddPlaceholders(AddPlaceholders(g, hs), [h]) == AddPlaceholders(g, hs + [h])
  {
    assert (set x | x in hs + [h]) == (set x | x in hs) + (set x | x in [h]);
  }

  lemma ReadableIs(header: seq<HeaderLine>, i: nat)
    requires i <= |header| && BadPerson !in header[..i]
    requires i == |header| || header[i] == BadPerson
    ensures Readable(header) == header[..i]
  {
    var r := Readable(header);
  }
}
