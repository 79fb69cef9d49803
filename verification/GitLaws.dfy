/** Order does not matter when commits are filed: laws about Git.Install. */
module GitLaws {
  import opened Basics
  import opened Git

  /** Files the commits of ps one after the other. */
  function InstallAll(g: Graph, ps: seq<CommitProto>): Graph {
    if ps == [] then g else Install(InstallAll(g, ps[..|ps| - 1]), ps[|ps| - 1])
  }

  /** A name stands for one content: what SHA-1 gives a git repository. */
  ghost predicate ContentAddressed(content: Hash -> Record, ps: seq<CommitProto>) {
    forall p | p in ps && Parses(p) :: RecordOf(p) == content(p.sha1)
  }

  function Names(ps: seq<CommitProto>): set<Hash> {
    set p | p in ps && Parses(p) :: p.sha1
  }

  function Mentions(ps: seq<CommitProto>): set<Hash> {
    set p, h | p in ps && h in Mentioned(p) :: h
  }

  ghost function Build(content: Hash -> Record, names: set<Hash>, mentions: set<Hash>): Graph {
    map h | h in names + mentions :: if h in names then Filled(content(h)) else Missing
  }

  /** The graph read off the set of commits, with no order in it. */
  ghost function GraphOf(content: Hash -> Record, ps: seq<CommitProto>): Graph {
    Build(content, Names(ps), Mentions(ps))
  }

  lemma {:induction false} InstallAllIsGraphOf(content: Hash -> Record, ps: seq<CommitProto>)
    requires ContentAddressed(content, ps)
    ensures InstallAll(map[], ps) == GraphOf(content, ps)
  {
    if ps != [] {
      var qs, p := ps[..|ps| - 1], ps[|ps| - 1];
      assert ps == qs + [p];
      InstallAllIsGraphOf(content, qs);
      NamesAppend(qs, p);
      GraphOfAppend(content, qs, p);
    }
  }

  lemma NamesAppend(qs: seq<CommitProto>, p: CommitProto)
    ensures Names(qs + [p]) == Names(qs) + if Parses(p) then {p.sha1} else {}
    ensures Mentions(qs + [p]) == Mentions(qs) + (set h | h in Mentioned(p))
  {
    assert forall q :: q in qs + [p] <==> q in qs || q == p;
  }

  lemma GraphOfAppend(content: Hash -> Record, qs: seq<CommitProto>, p: CommitProto)
    requires ContentAddressed(content, qs + [p])
    ensures GraphOf(content, qs + [p]) == Install(GraphOf(content, qs), p)
  {
    NamesAppend(qs, p);
    assert p in qs + [p];
    if !Parses(p) {
      assert Names(qs + [p]) == Names(qs);
    }
    BuildStep(content, Names(qs), Mentions(qs), Mentioned(p), p.sha1);
  }

  lemma BuildStep(content: Hash -> Record, names: set<Hash>, mentions: set<Hash>, hs: seq<Hash>, x: Hash)
    ensures var m := mentions + (set h | h in hs);
            && AddPlaceholders(Build(content, names, mentions), hs) == Build(content, names, m)
            && Build(content, names, m)[x := Filled(content(x))] == Build(content, names + {x}, m)
  {
  }

  /** Any order, with any repetition, gives the same graph. */
  lemma Confluence(content: Hash -> Record, ps: seq<CommitProto>, qs: seq<CommitProto>)
    requires ContentAddressed(content, ps)
    requires forall p :: p in ps <==> p in qs
    ensures InstallAll(map[], ps) == InstallAll(map[], qs)
  {
    InstallAllIsGraphOf(content, ps);
    InstallAllIsGraphOf(content, qs);
    assert Names(ps) == Names(qs);
    assert Mentions(ps) == Mentions(qs);
  }

  ghost predicate ParentClosed(ps: seq<CommitProto>) {
    forall p, h | p in ps && h in Mentioned(p) :: exists q :: q in ps && Parses(q) && q.sha1 == h
  }

  /** No placeholder is left exactly when every parent mentioned was itself filed. */
  lemma NoPlaceholderIffParentClosed(content: Hash -> Record, ps: seq<CommitProto>)
    requires ContentAddressed(content, ps)
    ensures (forall h | h in InstallAll(map[], ps) :: InstallAll(map[], ps)[h].Filled?) <==> ParentClosed(ps)
  {
    InstallAllIsGraphOf(content, ps);
    var g := GraphOf(content, ps);
    if ParentClosed(ps) {
      forall h | h in Mentions(ps) ensures h in Names(ps) {
        var p :| p in ps && h in Mentioned(p);
      }
    } else {
      var p, h :| p in ps && h in Mentioned(p) && !exists q :: q in ps && Parses(q) && q.sha1 == h;
      assert h in Mentions(ps) && h !in Names(ps);
      assert g[h] == Missing;
    }
  }

  /** Filing a commit again changes nothing, wherever the first time was. */
  lemma RefilingIsIdle(content: Hash -> Record, ps: seq<CommitProto>, p: CommitProto)
    requires ContentAddressed(content, ps) && p in ps
    ensures Install(InstallAll(map[], ps), p) == InstallAll(map[], ps)
  {
    var qs := ps + [p];
    assert qs[..|qs| - 1] == ps;
    Confluence(content, ps, qs);
  }

  // ---- What a filed commit holds ----

  /** The parents are those of the parent lines, in order; the committer is that of the last committer line. */
  lemma {:induction false} HeaderAppend(a: seq<HeaderLine>, b: seq<HeaderLine>)
    ensures ParentsOf(a + b) == ParentsOf(a) + ParentsOf(b)
    ensures CommitterOf(a + b) == if CommitterOf(b).Some? then CommitterOf(b) else CommitterOf(a)
  {
    if b == [] {
      assert a + b == a;
    } else {
      HeaderAppend(a, b[..|b| - 1]);
      assert (a + b)[..|a + b| - 1] == a + b[..|b| - 1];
    }
  }

  lemma HeaderOne(l: HeaderLine)
    ensures ParentsOf([l]) == if l.Parent? then [l.hash] else []
    ensures CommitterOf([l]) == if l.Committer? then Some(l.person) else None
  {
    assert [l][..0] == [];
  }

  lemma {:induction false} ParentsAreLines(header: seq<HeaderLine>, h: Hash)
    ensures h in ParentsOf(header) <==> Parent(h) in header
  {
    if header != [] {
      ParentsAreLines(header[..|header| - 1], h);
      assert header == header[..|header| - 1] + [header[|header| - 1]];
    }
  }

  /** A parent line before any that does not parse. */
  ghost predicate ReadsParent(header: seq<HeaderLine>, h: Hash) {
    exists i :: 0 <= i < |header| && header[i] == Parent(h) && BadPerson !in header[..i]
  }

  lemma ReadableParents(header: seq<HeaderLine>, h: Hash)
    ensures h in ParentsOf(Readable(header)) <==> ReadsParent(header, h)
  {
    var r := Readable(header);
    ParentsAreLines(r, h);
    if ReadsParent(header, h) {
      var i :| 0 <= i < |header| && header[i] == Parent(h) && BadPerson !in header[..i];
      assert forall k :: 0 <= k < i ==> header[k] == header[..i][k] && header[k] in header[..i];
      assert r[i] == header[i];
    }
    if Parent(h) in r {
      var i :| 0 <= i < |r| && r[i] == Parent(h);
      assert header[i] == Parent(h) && header[..i] == r[..i];
    }
  }

  /**
   Filing a commit: one without a frame does nothing; one that parses is held with its parents, its committer and its text;
   every other entry stays; and beside it there is a placeholder for every parent it mentions before a line that does not
   parse, if it was not known, and nothing else.
   */
  lemma FilingIs(g: Graph, p: CommitProto, h: Hash)
    ensures !p.framed ==> Install(g, p) == g
    ensures p.framed && BadPerson !in p.header ==>
              && p.sha1 in Install(g, p)
              && Install(g, p)[p.sha1] == Filled(Record(ParentsOf(p.header), CommitterOf(p.header), p.note))
    ensures h in g && (h != p.sha1 || !p.framed || BadPerson in p.header) ==> h in Install(g, p) && Install(g, p)[h] == g[h]
    ensures h !in g && (h != p.sha1 || BadPerson in p.header) ==>
              (h in Install(g, p) <==> p.framed && ReadsParent(p.header, h)) && (h in Install(g, p) ==> Install(g, p)[h] == Missing)
  {
    ReadableParents(p.header, h);
  }
}
