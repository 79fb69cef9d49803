/** What a clean-up makes of a CL, commit by commit along its meta branch (maintner/gerrit.go). */
module MetaLaws {
  import opened Basics
  import opened Git
  import opened GerritSpec

  function OwnMessage(rec: Record): seq<string> {
    match rec.note.message
    case None => []
    case Some(m) => [m]
  }

  /** A clean-up at h adds to one at its only parent: the message and the meta commit come last, the rest is overruled. */
  predicate OneMore(before: CL, after: CL, h: Hash, rec: Record) {
    && after.messages == before.messages + OwnMessage(rec)
    && after.metas == before.metas + [h]
    && after.created == before.created
    && after.status == (if rec.note.status != "" then rec.note.status else before.status)
    && after.branch == (if rec.note.branch.Some? then rec.note.branch.value else before.branch)
    && after.isPrivate == (before.isPrivate || rec.note.isPrivate)
    && after.commit == before.commit && after.version == before.version && after.meta == Some(h)
  }

  /** A clean-up at a root h leaves what its one commit says. */
  predicate JustOne(cl: CL, after: CL, h: Hash, rec: Record) {
    && after.messages == OwnMessage(rec)
    && after.metas == [h]
    && after.created == (if rec.committer.Some? then rec.committer.value.time else ZERO_TIME)
    && after.status == (if rec.note.status != "" then rec.note.status else if cl.status != "" then cl.status else "new")
    && after.branch == (if rec.note.branch.Some? then rec.note.branch.value else cl.branch)
    && after.isPrivate == (cl.isPrivate || rec.note.isPrivate)
    && after.commit == cl.commit && after.version == cl.version && after.meta == Some(h)
  }

  /** The clean-up of cl at h. */
  function At(rank: Hash -> nat, g: Graph, cl: CL, h: Hash): CL {
    FinishCL(rank, g, cl.(meta := Some(h)))
  }

  /** The walk from h comes to a root by only parents. */
  ghost predicate Linear(rank: Hash -> nat, g: Graph, h: Hash)
    decreases rank(h)
  {
    && h in g && g[h].Filled?
    && (g[h].rec.parents == []
        || (|g[h].rec.parents| == 1 && rank(g[h].rec.parents[0]) < rank(h) && Linear(rank, g, g[h].rec.parents[0])))
  }

  lemma {:induction false} LinearEnds(rank: Hash -> nat, g: Graph, h: Hash)
    requires Linear(rank, g, h)
    ensures Walk(rank, g, h).1.Root?
    decreases rank(h)
  {
    if g[h].rec.parents != [] {
      LinearEnds(rank, g, g[h].rec.parents[0]);
    }
  }

  lemma ReversedOne<T>(x: seq<T>)
    requires |x| <= 1
    ensures Reversed(x) == x
  {
    var r := Reversed(x);
    assert |x| == 1 ==> r[0] == x[0];
  }

  lemma MessagesOfOne(e: Entry)
    ensures Reversed(MessagesOf([e])) == OwnMessage(e.rec)
  {
    OneMessage(e);
    ReversedOne(OwnMessage(e.rec));
  }

  lemma MetasOfOne(e: Entry)
    ensures Reversed(HashesOfEntries([e])) == [e.hash] && (AnyPrivate([e]) <==> e.rec.note.isPrivate)
  {
    assert HashesOfEntries([e]) == [e.hash];
    ReversedOne([e.hash]);
    assert e in [e];
  }

  lemma CleanUpAtRoot(rank: Hash -> nat, g: Graph, cl: CL, h: Hash)
    requires h in g && g[h].Filled? && g[h].rec.parents == []
    ensures JustOne(cl, At(rank, g, cl, h), h, g[h].rec)
  {
    var e := Entry(h, g[h].rec);
    OneFirst(e);
    MessagesOfOne(e);
    MetasOfOne(e);
    assert Walk(rank, g, h) == ([e], Root);
  }

  /** A clean-up at a commit that has not arrived yet finds an empty commit. */
  lemma CleanUpAtPlaceholder(rank: Hash -> nat, g: Graph, cl: CL, h: Hash)
    requires h in g && g[h].Missing?
    ensures JustOne(cl, At(rank, g, cl, h), h, Record([], None, EMPTY_NOTE))
  {
    var e := Entry(h, Record([], None, EMPTY_NOTE));
    OneFirst(e);
    MessagesOfOne(e);
    MetasOfOne(e);
    assert Walk(rank, g, h) == ([e], Root);
  }

  /** Messages, oldest first. */
  lemma {:induction false} MessagesAppend(a: seq<Entry>, b: seq<Entry>)
    ensures MessagesOf(a + b) == MessagesOf(a) + MessagesOf(b)
  {
    if b == [] {
      assert a + b == a;
    } else {
      MessagesAppend(a, b[..|b| - 1]);
      assert (a + b)[..|a + b| - 1] == a + b[..|b| - 1];
    }
  }

  lemma OneMessage(e: Entry)
    ensures MessagesOf([e]) == OwnMessage(e.rec)
  {
    assert [e][..0] == [];
  }

  lemma ReversedMore<T>(x: seq<T>, s: seq<T>)
    requires |x| <= 1
    ensures Reversed(x + s) == Reversed(s) + x
  {
  }

  /** On a linear history whose head h has the only parent q. */
  lemma CleanUpAtChild(rank: Hash -> nat, g: Graph, cl: CL, h: Hash, q: Hash)
    requires Linear(rank, g, h) && g[h].rec.parents == [q]
    ensures OneMore(At(rank, g, cl, q), At(rank, g, cl, h), h, g[h].rec)
  {
    var e, older := Entry(h, g[h].rec), Walk(rank, g, q).0;
    LinearEnds(rank, g, q);
    assert Walk(rank, g, h) == ([e] + older, Root);
    MessagesAppend([e], older);
    OneMessage(e);
    ReversedMore(OwnMessage(e.rec), MessagesOf(older));
    HeadHash(e, older);
    FirstOfAppend([e], older);
    OneFirst(e);
  }

  lemma HeadHash(e: Entry, older: seq<Entry>)
    requires older != []
    ensures Reversed(HashesOfEntries([e] + older)) == Reversed(HashesOfEntries(older)) + [e.hash]
    ensures ([e] + older)[|older|] == older[|older| - 1]
    ensures AnyPrivate([e] + older) <==> e.rec.note.isPrivate || AnyPrivate(older)
  {
    assert HashesOfEntries([e] + older) == [e.hash] + HashesOfEntries(older);
    ReversedMore([e.hash], HashesOfEntries(older));
    assert e in [e] + older && forall x | x in older :: x in [e] + older;
  }

  lemma OneFirst(e: Entry)
    ensures FirstStatus([e]) == e.rec.note.status && FirstBranch([e]) == e.rec.note.branch
  {
    assert [e][1..] == [];
  }

  /** A walk that does not come to a root leaves the CL, but for the private mark of what it saw. */
  lemma CleanUpFails(rank: Hash -> nat, g: Graph, cl: CL, h: Hash)
    requires h in g && g[h].Filled? && |g[h].rec.parents| > 1
    ensures At(rank, g, cl, h) == cl.(meta := Some(h), isPrivate := cl.isPrivate || g[h].rec.note.isPrivate)
  {
  }

  lemma CleanUpFailsBelow(rank: Hash -> nat, g: Graph, cl: CL, h: Hash, q: Hash)
    requires h in g && g[h].Filled? && g[h].rec.parents == [q] && q in g && rank(q) < rank(h) && !Walk(rank, g, q).1.Root?
    ensures At(rank, g, cl, h) == At(rank, g, cl, q).(meta := Some(h), isPrivate := At(rank, g, cl, q).isPrivate || g[h].rec.note.isPrivate)
  {
    var e, older := Entry(h, g[h].rec), Walk(rank, g, q).0;
    assert Walk(rank, g, h).0 == [e] + older;
    HeadHash(e, older);
  }

  /** Both cases of a linear history. */
  lemma CleanUpLaw(rank: Hash -> nat, g: Graph, cl: CL)
    requires cl.meta.Some? && Linear(rank, g, cl.meta.value)
    ensures var h, after := cl.meta.value, FinishCL(rank, g, cl);
            var rec := g[h].rec;
            if rec.parents == [] then JustOne(cl, after, h, rec) else OneMore(At(rank, g, cl, rec.parents[0]), after, h, rec)
  {
    var h := cl.meta.value;
    assert cl.(meta := Some(h)) == cl;
    if g[h].rec.parents == [] {
      CleanUpAtRoot(rank, g, cl, h);
    } else {
      CleanUpAtChild(rank, g, cl, h, g[h].rec.parents[0]);
    }
  }
}
