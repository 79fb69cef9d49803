/** When a poll of a Gerrit project succeeds, and what it leaves in the log (maintner/gerrit.go). */
module Polling {
  import opened Basics
  import opened Git
  import opened GerritSpec
  import opened GerritReplay
  import opened GerritLog
  import opened Indexing

  const BATCH_SIZE := 250

  /** How a step of a poll stands: `Running` is a loop that was watched for a number of turns and has not ended. */
  datatype Outcome = Succeeded | Failed | Running

  /** What a fetch leaves in the git directory, and for how many turns the indexing after it is watched. */
  datatype Fetch = NotFetched | Fetched(git: Dir, turns: nat)

  /** The directory after the fetch, if any, is faithful. */
  ghost predicate FaithfulFetch(w: World, f: Fetch) {
    f.Fetched? ==> Faithful(w, f.git)
  }

  ghost predicate FaithfulFetches(w: World, fetches: seq<Fetch>) {
    forall k :: 0 <= k < |fetches| ==> FaithfulFetch(w, fetches[k])
  }

  /** The indexing is watched for more turns than the directory has commits. */
  predicate Patient(f: Fetch) {
    f.Fetched? ==> f.turns > |f.git|
  }

  predicate AllPatient(fetches: seq<Fetch>) {
    forall k :: 0 <= k < |fetches| ==> Patient(fetches[k])
  }

  // ---- Batches ----

  function HashesOf(refs: seq<Ref>): (r: seq<Hash>)
    ensures |r| == |refs| && forall i :: 0 <= i < |refs| ==> r[i] == refs[i].hash
  {
    seq(|refs|, i requires 0 <= i < |refs| => refs[i].hash)
  }

  /** Where the first k batches of n hashes end. */
  function Upto(k: nat, n: nat): (r: nat)
    ensures r <= n
  {
    if k * BATCH_SIZE < n then k * BATCH_SIZE else n
  }

  function Members(hashes: seq<Hash>): set<Hash> {
    set h | h in hashes
  }

  function Batch(hashes: seq<Hash>, k: nat): seq<Hash> {
    assert k * BATCH_SIZE <= (k + 1) * BATCH_SIZE;
    hashes[Upto(k, |hashes|)..Upto(k + 1, |hashes|)]
  }

  /** The length of the next batch. */
  function Next(n: nat): (r: nat)
    ensures r <= n && (n > 0 ==> r > 0)
  {
    if n > BATCH_SIZE then BATCH_SIZE else n
  }

  /** Batch k is the k-th run of 250 hashes; the last may be shorter. */
  lemma BatchIs(hashes: seq<Hash>, k: nat)
    requires 250 * k < |hashes|
    ensures Batch(hashes, k) == hashes[250 * k..if 250 * k + 250 < |hashes| then 250 * k + 250 else |hashes|]
  {
  }

  lemma NextBatchIs<T>(items: seq<T>, k: nat)
    requires Upto(k, |items|) < |items|
    ensures var todo := items[Upto(k, |items|)..];
            && Upto(k + 1, |items|) == Upto(k, |items|) + Next(|todo|)
            && todo[..Next(|todo|)] == items[Upto(k, |items|)..Upto(k + 1, |items|)]
            && todo[Next(|todo|)..] == items[Upto(k + 1, |items|)..]
            && items[..Upto(k + 1, |items|)] == items[..Upto(k, |items|)] + todo[..Next(|todo|)]
  {
  }

  /** What is known when batch k starts, if the batches before it succeeded. */
  ghost function KnownAt(w: World, known: iset<Hash>, need: set<Hash>, hashes: seq<Hash>, k: nat): iset<Hash>
    requires w.Valid()
  {
    if k == 0 then known else known + Above(w, need + Members(hashes[..Upto(k, |hashes|)]))
  }

  /**
   Batch k is fetched, and it and what was needed before can be indexed: its history is in the directory of its own
   fetch, or was known, or is history of what came before.
   */
  ghost predicate BatchOk(w: World, known: iset<Hash>, need: set<Hash>, hashes: seq<Hash>, fetches: seq<Fetch>, k: nat)
    requires w.Valid()
  {
    && k < |fetches| && fetches[k].Fetched?
    && AllWhole(w, Usable(fetches[k].git) + KnownAt(w, known, need, hashes, k), need + Members(Batch(hashes, k)))
  }

  /** Batch k is fetched, and indexing it may go on for ever. */
  ghost predicate BatchStuck(w: World, known: iset<Hash>, need: set<Hash>, hashes: seq<Hash>, fetches: seq<Fetch>, k: nat)
    requires w.Valid() && FaithfulFetches(w, fetches)
  {
    && k < |fetches| && fetches[k].Fetched?
    && Snagged(w, fetches[k].git, KnownAt(w, known, need, hashes, k), need + Members(Batch(hashes, k)))
  }

  lemma StuckIsNotOk(w: World, known: iset<Hash>, need: set<Hash>, hashes: seq<Hash>, fetches: seq<Fetch>, k: nat)
    requires w.Valid() && FaithfulFetches(w, fetches) && BatchStuck(w, known, need, hashes, fetches, k)
    ensures !BatchOk(w, known, need, hashes, fetches, k)
  {
    assert FaithfulFetch(w, fetches[k]);
    SnaggedIsNotWhole(w, fetches[k].git, KnownAt(w, known, need, hashes, k), need + Members(Batch(hashes, k)));
  }

  /** The first k batches succeed. */
  ghost predicate Started(w: World, known: iset<Hash>, need: set<Hash>, hashes: seq<Hash>, fetches: seq<Fetch>, k: nat)
    requires w.Valid()
  {
    && (k == 0 || Upto(k - 1, |hashes|) < |hashes|)
    && forall j: nat :: j < k ==> BatchOk(w, known, need, hashes, fetches, j)
  }

  /** How batch k ended, if it did not succeed: it could not, or it is still running. */
  ghost predicate Stops(w: World, known: iset<Hash>, need: set<Hash>, hashes: seq<Hash>, fetches: seq<Fetch>, r: Outcome, k: nat)
    requires w.Valid() && FaithfulFetches(w, fetches)
  {
    && Upto(k, |hashes|) < |hashes|
    && (r.Failed? ==> !BatchOk(w, known, need, hashes, fetches, k))
    && (r.Running? ==>
          k < |fetches| && (BatchStuck(w, known, need, hashes, fetches, k) || !Patient(fetches[k])))
  }

  /** The first k batches are all that comes before the first one that does not succeed. */
  ghost predicate Ends(w: World, known: iset<Hash>, need: set<Hash>, hashes: seq<Hash>, fetches: seq<Fetch>, r: Outcome, k: nat)
    requires w.Valid() && FaithfulFetches(w, fetches)
  {
    && Started(w, known, need, hashes, fetches, k)
    && if r.Succeeded? then Upto(k, |hashes|) == |hashes| else Stops(w, known, need, hashes, fetches, r, k)
  }

  /** All batches are fetched and can be indexed. */
  ghost predicate BatchesOk(w: World, known: iset<Hash>, need: set<Hash>, hashes: seq<Hash>, fetches: seq<Fetch>)
    requires w.Valid()
  {
    forall k: nat :: Upto(k, |hashes|) < |hashes| ==> BatchOk(w, known, need, hashes, fetches, k)
  }

  lemma EndsIsAll(w: World, known: iset<Hash>, need: set<Hash>, hashes: seq<Hash>, fetches: seq<Fetch>, r: Outcome, k: nat)
    requires w.Valid() && FaithfulFetches(w, fetches) && Ends(w, known, need, hashes, fetches, r, k)
    ensures r.Succeeded? ==> BatchesOk(w, known, need, hashes, fetches)
    ensures AllPatient(fetches) ==> (r.Succeeded? <==> BatchesOk(w, known, need, hashes, fetches))
  {
    if r.Succeeded? {
      forall j: nat | Upto(j, |hashes|) < |hashes| ensures BatchOk(w, known, need, hashes, fetches, j) {
        assert j >= k ==> j * BATCH_SIZE >= k * BATCH_SIZE;
      }
    } else if BatchStuck(w, known, need, hashes, fetches, k) {
      StuckIsNotOk(w, known, need, hashes, fetches, k);
    }
  }

  /** What was known and needed is known once batch 0 is done, so only the hashes of batch k are left to index for it. */
  lemma LeftForBatch(w: World, known: iset<Hash>, need: set<Hash>, hashes: seq<Hash>, git: Dir, k: nat)
    requires w.Valid() && Faithful(w, git)
    ensures var at, left := KnownAt(w, known, need, hashes, k), (if k == 0 then need else {}) + Members(Batch(hashes, k));
            && (AllWhole(w, Usable(git) + at, need + Members(Batch(hashes, k))) <==> AllWhole(w, Usable(git) + at, left))
            && (Snagged(w, git, at, left) ==> Snagged(w, git, at, need + Members(Batch(hashes, k))))
  {
    var at := KnownAt(w, known, need, hashes, k);
    if k > 0 {
      var all := need + Members(hashes[..Upto(k, |hashes|)]);
      forall h, a | h in need && IsAncestor(w, a, h) ensures a in at {
        assert h in all && IsAbove(w, all, a);
      }
      forall h | h in need ensures h in at {
        assert IsAncestor(w, h, h);
      }
    }
  }

  /** What is known after batch k. */
  lemma KnownMore(w: World, known: iset<Hash>, need: set<Hash>, hashes: seq<Hash>, k: nat)
    requires w.Valid() && Upto(k, |hashes|) < |hashes|
    ensures KnownAt(w, known, need, hashes, k + 1) ==
              KnownAt(w, known, need, hashes, k) + Above(w, (if k == 0 then need else {}) + Members(Batch(hashes, k)))
  {
    var before, batch := Members(hashes[..Upto(k, |hashes|)]), Members(Batch(hashes, k));
    NextBatchIs(hashes, k);
    assert Members(hashes[..Upto(k + 1, |hashes|)]) == before + batch;
    if k == 0 {
      assert need + (before + batch) == need + batch;
    } else {
      AboveGrows(w, need + before, batch);
      assert need + (before + batch) == (need + before) + batch && {} + batch == batch;
    }
  }

  // ---- A whole poll ----

  /** What earlier polls left out can be indexed. */
  ghost predicate MissingOk(w: World, s: State, missing: Fetch)
    requires w.Valid()
  {
    s.need == {} || (missing.Fetched? && AllWhole(w, Have(missing.git, s), s.need))
  }

  /** What is known once nothing is missing. */
  ghost function KnownThen(w: World, s: State): iset<Hash>
    requires w.Valid()
  {
    KnownSet(s) + Above(w, s.need)
  }

  /** Nothing stays missing, the remote was listed, and all batches of changed refs succeed. */
  ghost predicate PollOk(w: World, s: State, missing: Fetch, listing: Option<seq<Ref>>, fetches: seq<Fetch>)
    requires w.Valid()
  {
    && MissingOk(w, s, missing) && listing.Some?
    && BatchesOk(w, KnownThen(w, s), {}, HashesOf(ChangedRefs(s, listing.value)), fetches)
  }

  /**
   How a poll ended: it succeeds only if it can, and if it can and is watched for long enough. When nothing stays missing
   and the remote was listed, the first `done` batches succeeded, and the next one did not unless all did.
   */
  ghost predicate PollEnded(w: World, s: State, missing: Fetch, listing: Option<seq<Ref>>, fetches: seq<Fetch>, r: Outcome, done: nat)
    requires w.Valid() && FaithfulFetch(w, missing) && FaithfulFetches(w, fetches)
  {
    && (r.Succeeded? ==> PollOk(w, s, missing, listing, fetches))
    && (Patient(missing) && AllPatient(fetches) ==> (r.Succeeded? <==> PollOk(w, s, missing, listing, fetches)))
    && (Patient(missing) && MissingOk(w, s, missing) && listing.Some? ==>
          Ends(w, KnownThen(w, s), {}, HashesOf(ChangedRefs(s, listing.value)), fetches, r, done))
    && (!MissingOk(w, s, missing) || listing.None? ==> done == 0)
    && (r.Running? && !MissingOk(w, s, missing) ==> missing.Fetched? && (Doomed(w, missing.git, s) || !Patient(missing)))
  }

  /** The fetch brings the commits with all their history. */
  ghost predicate FetchesAll(w: World, f: Fetch, hs: set<Hash>) {
    f.Fetched? && Faithful(w, f.git) && Complete(f.git) && hs <= f.git.Keys
  }

  ghost predicate FetchesEachBatch(w: World, hashes: seq<Hash>, fetches: seq<Fetch>) {
    forall k: nat :: Upto(k, |hashes|) < |hashes| ==> k < |fetches| && FetchesAll(w, fetches[k], Members(Batch(hashes, k)))
  }

  /** A poll succeeds if each fetch brings all that it is for. */
  lemma CompletePollsSucceed(w: World, s: State, missing: Fetch, listing: seq<Ref>, fetches: seq<Fetch>)
    requires w.Valid() && FetchesAll(w, missing, s.need)
    requires FetchesEachBatch(w, HashesOf(ChangedRefs(s, listing)), fetches)
    ensures PollOk(w, s, missing, Some(listing), fetches)
  {
    CompleteIsWhole(w, missing.git, Have(missing.git, s), s.need);
    var hashes := HashesOf(ChangedRefs(s, listing));
    forall k: nat | Upto(k, |hashes|) < |hashes| ensures BatchOk(w, KnownThen(w, s), {}, hashes, fetches, k) {
      var have := Usable(fetches[k].git) + KnownAt(w, KnownThen(w, s), {}, hashes, k);
      CompleteIsWhole(w, fetches[k].git, have, {} + Members(Batch(hashes, k)));
    }
  }

  // ---- A poll leaves no ref behind ----

  /** From s to t the refs were logged: they need no fetch now, and other refs are as before. */
  ghost predicate Settles(s: State, t: State, refs: seq<Ref>) {
    Apart(refs) ==>
      forall r ::
        && (r in refs ==> !NeedsFetch(t, r))
        && (r.name !in NamesOf(refs) ==> (NeedsFetch(t, r) <==> NeedsFetch(s, r)))
  }

  lemma SettlesNone(s: State, t: State)
    requires SameRefMaps(s, t)
    ensures Settles(s, t, [])
  {
  }

  /** The leader's refs of known commits settle. */
  lemma RefsSettle(w: World, s: State, log: seq<Mutation>, refs: seq<Ref>)
    requires w.Valid() && Leads(w, s, log) && forall r | r in refs :: r.hash in s.commit
    ensures var t := Added(w.rank, s, GerritMutation([], [], refs));
            && t.commit == s.commit && t.need == s.need && Settles(s, t, refs)
            && forall n | n in t.ref :: n in s.ref || PlainRef(n) in NamesOf(refs)
  {
    LeaderIsIndexed(w, s, log);
    MutationLearns(w.rank, s, GerritMutation([], [], refs));
    AddedNames(w.rank, s, refs);
    if Apart(refs) {
      forall r
        ensures var t := Added(w.rank, s, GerritMutation([], [], refs));
                && (r in refs ==> !NeedsFetch(t, r))
                && (r.name !in NamesOf(refs) ==> (NeedsFetch(t, r) <==> NeedsFetch(s, r)))
      {
        AddRefs(w.rank, s, refs, r);
      }
    }
  }

  lemma SettlesMore(s: State, mid: State, mid': State, t: State, a: seq<Ref>, b: seq<Ref>)
    requires Settles(s, mid, a) && SameRefMaps(mid, mid') && Settles(mid', t, b)
    ensures Settles(s, t, a + b)
  {
    if Apart(a + b) {
      assert a == (a + b)[..|a|] && b == (a + b)[|a|..];
      forall r ensures (r in a + b ==> !NeedsFetch(t, r))
        && (r.name !in NamesOf(a + b) ==> (NeedsFetch(t, r) <==> NeedsFetch(s, r)))
      {
        SettlesOne(s, mid, mid', t, a, b, r);
      }
    }
  }

  lemma SettlesOne(s: State, mid: State, mid': State, t: State, a: seq<Ref>, b: seq<Ref>, r: Ref)
    requires Settles(s, mid, a) && SameRefMaps(mid, mid') && Settles(mid', t, b) && Apart(a + b)
    requires a == (a + b)[..|a|] && b == (a + b)[|a|..]
    ensures r in a + b ==> !NeedsFetch(t, r)
    ensures r.name !in NamesOf(a + b) ==> (NeedsFetch(t, r) <==> NeedsFetch(s, r))
  {
    ApartParts(a, b);
    assert NeedsFetch(mid', r) <==> NeedsFetch(mid, r);
    if r in a && r.name in NamesOf(b) {
      ApartNames(a, b, r);
    }
    if r.name !in NamesOf(a + b) {
      assert forall q :: q in a || q in b ==> q in a + b;
    }
  }

  lemma ApartParts(a: seq<Ref>, b: seq<Ref>)
    requires Apart(a + b)
    ensures Apart(a) && Apart(b)
  {
    assert forall i :: 0 <= i < |a| ==> a[i] == (a + b)[i];
    assert forall i :: 0 <= i < |b| ==> b[i] == (a + b)[|a| + i];
  }

  lemma ApartNames(a: seq<Ref>, b: seq<Ref>, r: Ref)
    requires Apart(a + b) && r in a && r.name in NamesOf(b)
    ensures r.name.BadChangeRef? || r.name.ConfigRef?
  {
    var i :| 0 <= i < |a| && a[i] == r;
    var q :| q in b && q.name == r.name;
    var j :| 0 <= j < |b| && b[j] == q;
    assert (a + b)[i] == r && (a + b)[|a| + j] == q;
  }

  lemma {:induction false} ChangedApart(s: State, listing: seq<Ref>)
    requires Apart(listing)
    ensures Apart(ChangedRefs(s, listing))
  {
    if listing != [] {
      var init, last := listing[..|listing| - 1], listing[|listing| - 1];
      assert forall i :: 0 <= i < |init| ==> init[i] == listing[i];
      ChangedApart(s, init);
      ChangedRefsIs(s, init);
      if NeedsFetch(s, last) {
        var changed := ChangedRefs(s, init);
        forall i | 0 <= i < |changed| && (changed[i].name.ChangeRef? || changed[i].name.PlainRef?) ensures changed[i].name != last.name {
          assert changed[i] in changed;
          var k :| 0 <= k < |init| && init[k] == changed[i];
          assert listing[k].name != last.name;
        }
      }
    }
  }

  lemma {:induction false} NothingChanged(s: State, listing: seq<Ref>)
    requires forall r | r in listing :: !NeedsFetch(s, r)
    ensures ChangedRefs(s, listing) == []
  {
    if listing != [] {
      assert listing[|listing| - 1] in listing;
      NothingChanged(s, listing[..|listing| - 1]);
    }
  }

  /** After a poll that logged all changed refs, polling the same listing changes nothing. */
  lemma PollsConverge(s: State, s': State, t: State, listing: seq<Ref>)
    requires Apart(listing) && Settles(s', t, ChangedRefs(s, listing))
    requires forall r | r in listing :: NeedsFetch(s', r) <==> NeedsFetch(s, r)
    ensures ChangedRefs(t, listing) == []
  {
    var changed := ChangedRefs(s, listing);
    ChangedApart(s, listing);
    ChangedRefsIs(s, listing);
    forall r | r in listing ensures !NeedsFetch(t, r) {
      if r !in changed && r.name in NamesOf(changed) {
        var q :| q in changed && q.name == r.name;
        ApartInListing(listing, r, q);
      }
    }
    NothingChanged(t, listing);
  }

  lemma ApartInListing(listing: seq<Ref>, r: Ref, q: Ref)
    requires Apart(listing) && r in listing && q in listing && r != q && r.name == q.name
    ensures r.name.BadChangeRef? || r.name.ConfigRef?
  {
    var i :| 0 <= i < |listing| && listing[i] == r;
    var j :| 0 <= j < |listing| && listing[j] == q;
    assert if i < j then listing[i].name == listing[j].name else listing[j].name == listing[i].name;
  }

  // ---- What the steps of a poll do to the leader's state s and its log ----

  /** The commits that can be indexed or are. */
  ghost function Have(git: Dir, s: State): iset<Hash> {
    Usable(git) + KnownSet(s)
  }

  /** From s to t only history of what was asked for was indexed or asked for; nothing was forgotten, and the refs are as before. */
  ghost predicate Grows(w: World, s: State, log: seq<Mutation>, t: State, log': seq<Mutation>)
    requires w.Valid()
  {
    && log <= log' && RefsLogged(log') == RefsLogged(log) && SameRefMaps(s, t)
    && s.commit.Keys + s.need <= t.commit.Keys + t.need
    && (forall a | a in t.need :: a in Above(w, s.need)) && KnownSet(t) <= KnownSet(s) + Above(w, s.need)
  }

  /** From s to t commits of git were indexed. */
  ghost predicate Indexes(w: World, git: Dir, s: State, log: seq<Mutation>, t: State, log': seq<Mutation>)
    requires w.Valid()
  {
    && Grows(w, s, log, t, log') && Have(git, s) == Have(git, t)
    && (AllWhole(w, Have(git, s), s.need) ==> AllWhole(w, Have(git, t), t.need))
  }

  lemma GrowsNone(w: World, s: State, log: seq<Mutation>)
    requires w.Valid()
    ensures Grows(w, s, log, s, log)
  {
    NeedIsAbove(w, s.need);
  }

  lemma NeedIsAbove(w: World, need: set<Hash>)
    requires w.Valid()
    ensures forall h | h in need :: h in Above(w, need)
  {
    forall h | h in need ensures IsAbove(w, need, h) {
      assert IsAncestor(w, h, h);
    }
  }

  lemma IndexesTrans(w: World, git: Dir, s: State, log: seq<Mutation>, mid: State, log': seq<Mutation>, t: State, log'': seq<Mutation>)
    requires w.Valid() && Indexes(w, git, s, log, mid, log') && Indexes(w, git, mid, log', t, log'')
    ensures Indexes(w, git, s, log, t, log'')
  {
    forall a | a in Above(w, mid.need) ensures a in Above(w, s.need) {
      var h :| h in mid.need && IsAncestor(w, a, h);
      AboveTrans(w, s.need, h, a);
    }
  }

  /** One turn on a commit that is asked for. */
  lemma OneIndexed(w: World, git: Dir, s: State, log: seq<Mutation>, h: Hash)
    requires w.Valid() && Faithful(w, git) && Worklist(s) && h in s.need && h in git
    ensures Indexes(w, git, s, log, Turn(w, git, s, h), log + [OneCommit(git[h])])
  {
    TurnIs(w, git, s, h);
    LogsMore(log, OneCommit(git[h]));
    TurnedIndexes(w, git, s, log, Turn(w, git, s, h), log + [OneCommit(git[h])], h);
  }

  lemma TurnedIndexes(w: World, git: Dir, s: State, log: seq<Mutation>, t: State, log': seq<Mutation>, h: Hash)
    requires w.Valid() && h in s.need && h in git && Turned(w, s, h, Parses(git[h]), t)
    requires log <= log' && RefsLogged(log') == RefsLogged(log)
    ensures Indexes(w, git, s, log, t, log')
  {
    if Parses(git[h]) {
      OneGrows(w, s, t, h);
      assert KnownSet(t) == KnownSet(s) + iset{h} && Have(git, t) == Have(git, s);
      if AllWhole(w, Have(git, s), s.need) {
        StillWhole(w, Have(git, s), s.need, h);
      }
    } else {
      NeedIsAbove(w, s.need);
    }
  }

  lemma OneGrows(w: World, s: State, t: State, h: Hash)
    requires w.Valid() && h in s.need && Turned(w, s, h, true, t)
    ensures (forall a | a in t.need :: a in Above(w, s.need)) && KnownSet(t) <= KnownSet(s) + Above(w, s.need)
    ensures s.commit.Keys + s.need <= t.commit.Keys + t.need
  {
    NeedIsAbove(w, s.need);
    forall q | q in w.content(h).parents ensures IsAbove(w, s.need, q) {
      assert IsAncestor(w, q, q) && IsAncestor(w, q, h);
    }
  }

  lemma LogsMore(log: seq<Mutation>, m: Mutation)
    ensures RefsLogged(log + [m]) == RefsLogged(log) + RefsIn(m) && log <= log + [m]
  {
    assert (log + [m])[..|log|] == log;
  }

  /** A commit that is asked for and is not in git is not to be had. */
  lemma NotToBeHad(w: World, git: Dir, s: State, h: Hash)
    requires w.Valid() && Worklist(s) && h in s.need && h !in git
    ensures !AllWhole(w, Have(git, s), s.need)
  {
    assert IsAncestor(w, h, h);
  }

  /** What is indexed in the end could be indexed. */
  lemma IndexedAll(w: World, git: Dir, s: State, log: seq<Mutation>, t: State, log': seq<Mutation>, hs: set<Hash>)
    requires w.Valid() && Consistent(w, t) && Worklist(t) && t.need == {}
    requires Indexes(w, git, s, log, t, log') && hs <= t.commit.Keys
    ensures AllWhole(w, Have(git, s), hs)
  {
    forall h | h in hs ensures Whole(w, Have(git, s), h) {
      KnownIsWhole(w, t, Have(git, t), h);
    }
  }

  /** When nothing is asked for any more, exactly the history of what was asked for has become known. */
  lemma GrownTo(w: World, s: State, log: seq<Mutation>, t: State, log': seq<Mutation>)
    requires w.Valid() && Consistent(w, t) && Worklist(t) && t.need == {} && Grows(w, s, log, t, log')
    ensures KnownSet(t) == KnownSet(s) + Above(w, s.need)
  {
    forall a | a in Above(w, s.need) ensures a in t.commit {
      var h :| h in s.need && IsAncestor(w, a, h);
      KnownHistoryIsLogged(w, t, h, a);
    }
  }

  /** What is not doomed was not watched for longer than it took. */
  ghost predicate Counts(w: World, git: Dir, s: State, t: State, taken: nat)
    requires w.Valid() && Faithful(w, git)
  {
    !Doomed(w, git, s) ==>
      !Doomed(w, git, t) && |git.Keys - t.commit.Keys| + taken == |git.Keys - s.commit.Keys|
  }

  lemma CountsMore(w: World, git: Dir, s: State, mid: State, h: Hash, taken: nat)
    requires w.Valid() && Faithful(w, git) && Worklist(mid) && h in mid.need && h in git && Counts(w, git, s, mid, taken)
    ensures Counts(w, git, s, Turn(w, git, mid, h), taken + 1)
  {
    if !Doomed(w, git, s) {
      TurnsCount(w, git, mid, h);
    }
  }

  /** One more turn, after some since s. */
  ghost predicate Advances(w: World, git: Dir, s: State, taken: nat, mid: State, log: seq<Mutation>, t: State, log': seq<Mutation>)
    requires w.Valid() && Faithful(w, git)
  {
    Indexes(w, git, mid, log, t, log') && (Counts(w, git, s, mid, taken) ==> Counts(w, git, s, t, taken + 1))
  }

  lemma TurnAdvances(w: World, git: Dir, s: State, taken: nat, mid: State, log: seq<Mutation>, h: Hash)
    requires w.Valid() && Faithful(w, git) && Worklist(mid) && h in mid.need && h in git
    ensures Advances(w, git, s, taken, mid, log, Turn(w, git, mid, h), log + [OneCommit(git[h])])
  {
    OneIndexed(w, git, mid, log, h);
    if Counts(w, git, s, mid, taken) {
      CountsMore(w, git, s, mid, h, taken);
    }
  }

  /** From s to t some turns of syncCommits were taken, after which one may have failed. */
  ghost predicate Syncing(w: World, git: Dir, s: State, log: seq<Mutation>, t: State, log': seq<Mutation>, taken: nat, ok: bool)
    requires w.Valid() && Faithful(w, git)
  {
    && Indexes(w, git, s, log, t, log') && Counts(w, git, s, t, taken)
    && (!ok ==> t.need != {} && !AllWhole(w, Have(git, t), t.need))
  }

  /** From s to t all that was asked for was indexed, or could not be, or syncCommits still runs. */
  ghost predicate Synced(w: World, git: Dir, turns: nat, s: State, log: seq<Mutation>, t: State, log': seq<Mutation>, r: Outcome)
    requires w.Valid() && Faithful(w, git)
  {
    && Indexes(w, git, s, log, t, log') && (r.Succeeded? <==> t.need == {})
    && (r.Succeeded? ==> AllWhole(w, Have(git, s), s.need))
    && (r.Failed? ==> !AllWhole(w, Have(git, s), s.need))
    && (r.Running? ==> Doomed(w, git, s) || turns <= |git|)
  }

  lemma SyncedIs(w: World, git: Dir, turns: nat, s: State, log: seq<Mutation>, t: State, log': seq<Mutation>, ok: bool)
    requires w.Valid() && Faithful(w, git) && Consistent(w, t) && Worklist(t)
    requires exists taken: nat :: taken <= turns && Syncing(w, git, s, log, t, log', taken, ok) && (ok && t.need != {} ==> taken == turns)
    ensures Synced(w, git, turns, s, log, t, log', if !ok then Failed else if t.need == {} then Succeeded else Running)
  {
    var taken: nat :| taken <= turns && Syncing(w, git, s, log, t, log', taken, ok) && (ok && t.need != {} ==> taken == turns);
    if t.need == {} {
      IndexedAll(w, git, s, log, t, log', s.need);
    }
    SmallerSet(git.Keys - s.commit.Keys, git.Keys);
  }

  lemma SmallerSet(a: set<Hash>, b: set<Hash>)
    requires a <= b
    ensures |a| <= |b|
  {
    assert b == a + (b - a);
  }

  /** syncCommits that is watched for long enough succeeds exactly when all that is asked for can be indexed. */
  lemma PatientSynced(w: World, git: Dir, turns: nat, s: State, log: seq<Mutation>, t: State, log': seq<Mutation>, r: Outcome)
    requires w.Valid() && Faithful(w, git) && Synced(w, git, turns, s, log, t, log', r) && turns > |git|
    ensures r.Succeeded? <==> AllWhole(w, Have(git, s), s.need)
  {
    if r.Running? {
      SnaggedIsNotWhole(w, git, KnownSet(s), s.need);
    }
  }

  /** How indexing what was missing ended. */
  ghost predicate Missed(w: World, s: State, t: State, f: Fetch, r: Outcome)
    requires w.Valid() && FaithfulFetch(w, f)
  {
    && (r.Succeeded? ==> MissingOk(w, s, f) && t.need == {} && KnownSet(t) == KnownThen(w, s))
    && (r.Failed? ==> !MissingOk(w, s, f))
    && (r.Running? ==> f.Fetched? && ((Doomed(w, f.git, s) && !MissingOk(w, s, f)) || !Patient(f)))
  }

  lemma NothingMissing(w: World, s: State, f: Fetch)
    requires w.Valid() && FaithfulFetch(w, f) && s.need == {}
    ensures Missed(w, s, s, f, Succeeded)
  {
    assert KnownSet(s) == KnownThen(w, s);
  }

  lemma MissedIs(w: World, s: State, log: seq<Mutation>, t: State, log': seq<Mutation>, f: Fetch, r: Outcome)
    requires w.Valid() && f.Fetched? && Faithful(w, f.git) && s.need != {} && Consistent(w, t) && Worklist(t)
    requires Synced(w, f.git, f.turns, s, log, t, log', r)
    ensures Missed(w, s, t, f, r)
  {
    if r.Succeeded? {
      GrownTo(w, s, log, t, log');
    } else if r.Running? && Patient(f) {
      SnaggedIsNotWhole(w, f.git, KnownSet(s), s.need);
    }
  }

  /** From s to t the refs were logged. */
  ghost predicate Logs(s: State, log: seq<Mutation>, t: State, log': seq<Mutation>, refs: seq<Ref>) {
    && log <= log' && RefsLogged(log') == RefsLogged(log) + refs && Settles(s, t, refs)
    && forall n | n in t.ref :: n in s.ref || PlainRef(n) in NamesOf(refs)
  }

  ghost predicate LogsNothing(s: State, log: seq<Mutation>, t: State, log': seq<Mutation>) {
    log <= log' && RefsLogged(log') == RefsLogged(log) && SameRefMaps(s, t)
  }

  lemma LogsNone(s: State, log: seq<Mutation>, t: State, log': seq<Mutation>)
    requires LogsNothing(s, log, t, log')
    ensures Logs(s, log, t, log', [])
  {
    SettlesNone(s, t);
    assert RefsLogged(log) + [] == RefsLogged(log);
  }

  lemma LogsTrans(s: State, log: seq<Mutation>, mid: State, log': seq<Mutation>, t: State, log'': seq<Mutation>, a: seq<Ref>, b: seq<Ref>)
    requires Logs(s, log, mid, log', a) && Logs(mid, log', t, log'', b)
    ensures Logs(s, log, t, log'', a + b)
  {
    AppendAssoc(RefsLogged(log), a, b);
    SettlesMore(s, mid, mid, t, a, b);
    assert forall r :: r in a || r in b ==> r in a + b;
  }

  lemma LogsAfter(s: State, log: seq<Mutation>, mid: State, log': seq<Mutation>, t: State, log'': seq<Mutation>, refs: seq<Ref>)
    requires LogsNothing(s, log, mid, log') && Logs(mid, log', t, log'', refs)
    ensures Logs(s, log, t, log'', refs)
  {
    LogsNone(s, log, mid, log');
    LogsTrans(s, log, mid, log', t, log'', [], refs);
    assert [] + refs == refs;
  }

  /** How indexing the commits hs ended. */
  ghost predicate BatchEnded(w: World, git: Dir, turns: nat, s: State, t: State, hs: set<Hash>, r: Outcome)
    requires w.Valid() && Faithful(w, git)
  {
    && (r.Succeeded? ==>
          AllWhole(w, Have(git, s), hs) && t.need == {} && KnownSet(t) == KnownSet(s) + Above(w, hs))
    && (r.Failed? ==> !AllWhole(w, Have(git, s), hs))
    && (r.Running? ==> Snagged(w, git, KnownSet(s), hs) || turns <= |git|)
  }

  /** What a batch of refs does. */
  ghost predicate Batched(w: World, git: Dir, turns: nat, s: State, log: seq<Mutation>, t: State, log': seq<Mutation>,
                          batch: seq<Hash>, refs: seq<Ref>, r: Outcome)
    requires w.Valid() && Faithful(w, git)
  {
    BatchEnded(w, git, turns, s, t, s.need + Members(batch), r) && Logs(s, log, t, log', if r.Succeeded? then refs else [])
  }

  /** The state after `done` batches; the one after them may have failed or may be running. */
  ghost predicate Batching(w: World, s: State, log: seq<Mutation>, t: State, log': seq<Mutation>,
                           hashes: seq<Hash>, refs: seq<Ref>, fetches: seq<Fetch>, r: Outcome, done: nat)
    requires w.Valid() && FaithfulFetches(w, fetches)
  {
    && Logs(s, log, t, log', refs[..Upto(done, |refs|)])
    && Started(w, KnownSet(s), s.need, hashes, fetches, done)
    && if r.Succeeded? then
         && t.need == (if done == 0 then s.need else {})
         && KnownSet(t) == KnownAt(w, KnownSet(s), s.need, hashes, done)
       else Stops(w, KnownSet(s), s.need, hashes, fetches, r, done)
  }

  lemma BatchingStarts(w: World, s: State, log: seq<Mutation>, hashes: seq<Hash>, refs: seq<Ref>, fetches: seq<Fetch>)
    requires w.Valid() && FaithfulFetches(w, fetches)
    ensures Batching(w, s, log, s, log, hashes, refs, fetches, Succeeded, 0)
  {
    LogsNone(s, log, s, log);
    assert refs[..0] == [];
  }

  lemma BatchingStep(w: World, s: State, log: seq<Mutation>, mid: State, log': seq<Mutation>, t: State, log'': seq<Mutation>,
                     hashes: seq<Hash>, refs: seq<Ref>, fetches: seq<Fetch>, done: nat, r: Outcome)
    requires w.Valid() && FaithfulFetches(w, fetches) && |hashes| == |refs|
    requires Upto(done, |refs|) < |refs| && done < |fetches| && fetches[done].Fetched? && Faithful(w, fetches[done].git)
    requires Batching(w, s, log, mid, log', hashes, refs, fetches, Succeeded, done)
    requires var batch := refs[Upto(done, |refs|)..Upto(done + 1, |refs|)];
             Batched(w, fetches[done].git, fetches[done].turns, mid, log', t, log'', Batch(hashes, done), batch, r)
    ensures Batching(w, s, log, t, log'', hashes, refs, fetches, r, if r.Succeeded? then done + 1 else done)
  {
    var before, batch := refs[..Upto(done, |refs|)], refs[Upto(done, |refs|)..Upto(done + 1, |refs|)];
    LogsTrans(s, log, mid, log', t, log'', before, if r.Succeeded? then batch else []);
    BatchStands(w, s, mid, t, hashes, fetches, done, r);
    if r.Succeeded? {
      NextBatchIs(refs, done);
    } else {
      assert before + [] == before;
    }
  }

  /** What the end of a batch says about the batches. */
  lemma BatchStands(w: World, s: State, mid: State, t: State, hashes: seq<Hash>, fetches: seq<Fetch>, k: nat, r: Outcome)
    requires w.Valid() && FaithfulFetches(w, fetches) && Upto(k, |hashes|) < |hashes|
    requires k < |fetches| && fetches[k].Fetched? && Faithful(w, fetches[k].git)
    requires Started(w, KnownSet(s), s.need, hashes, fetches, k)
    requires mid.need == (if k == 0 then s.need else {}) && KnownSet(mid) == KnownAt(w, KnownSet(s), s.need, hashes, k)
    requires BatchEnded(w, fetches[k].git, fetches[k].turns, mid, t, mid.need + Members(Batch(hashes, k)), r)
    ensures r.Succeeded? ==> Started(w, KnownSet(s), s.need, hashes, fetches, k + 1) && t.need == {}
    ensures r.Succeeded? ==> KnownSet(t) == KnownAt(w, KnownSet(s), s.need, hashes, k + 1)
    ensures !r.Succeeded? ==> Stops(w, KnownSet(s), s.need, hashes, fetches, r, k)
  {
    LeftForBatch(w, KnownSet(s), s.need, hashes, fetches[k].git, k);
    if r.Succeeded? {
      KnownMore(w, KnownSet(s), s.need, hashes, k);
      StartedMore(w, KnownSet(s), s.need, hashes, fetches, k);
    }
  }

  lemma StartedMore(w: World, known: iset<Hash>, need: set<Hash>, hashes: seq<Hash>, fetches: seq<Fetch>, k: nat)
    requires w.Valid() && Started(w, known, need, hashes, fetches, k) && BatchOk(w, known, need, hashes, fetches, k)
    requires Upto(k, |hashes|) < |hashes|
    ensures Started(w, known, need, hashes, fetches, k + 1)
  {
  }

  lemma MembersMore(hashes: seq<Hash>, i: nat)
    requires i < |hashes|
    ensures Members(hashes[..i + 1]) == Members(hashes[..i]) + {hashes[i]}
  {
    assert hashes[..i + 1] == hashes[..i] + [hashes[i]];
  }

  /** Asking for a batch and then indexing all that is asked for. */
  lemma MarkedIsIndexed(w: World, git: Dir, turns: nat, s: State, batch: seq<Hash>, marked: State, log: seq<Mutation>,
                        t: State, log': seq<Mutation>, r: Outcome)
    requires w.Valid() && Faithful(w, git) && Consistent(w, s) && Worklist(s) && Consistent(w, t) && Worklist(t)
    requires marked == s.(need := s.need + (Members(batch) - s.commit.Keys))
    requires Synced(w, git, turns, marked, log, t, log', r)
    ensures LogsNothing(s, log, t, log')
    ensures r.Succeeded? ==> Members(batch) <= t.commit.Keys
    ensures BatchEnded(w, git, turns, s, t, s.need + Members(batch), r)
  {
    if r.Succeeded? {
      IndexedAll(w, git, marked, log, t, log', s.need + Members(batch));
      GrownTo(w, marked, log, t, log');
      MarkedGrownTo(w, s, s.need + Members(batch), marked, t);
    }
  }

  lemma MarkedGrownTo(w: World, s: State, hs: set<Hash>, marked: State, t: State)
    requires w.Valid() && Consistent(w, t) && Worklist(t) && t.need == {}
    requires marked.need <= hs <= s.commit.Keys + marked.need && KnownSet(t) == KnownSet(s) + Above(w, marked.need)
    ensures KnownSet(t) == KnownSet(s) + Above(w, hs)
  {
    AboveGrows(w, marked.need, hs);
    assert marked.need + hs == hs;
    forall a | a in Above(w, hs) ensures a in t.commit {
      var h :| h in hs && IsAncestor(w, a, h);
      assert h in KnownSet(t) by {
        NeedIsAbove(w, marked.need);
      }
      KnownHistoryIsLogged(w, t, h, a);
    }
  }

  /** What a poll with a listing does: it logs the refs of the batches before the first one that does not succeed. */
  ghost predicate Polled(w: World, known: iset<Hash>, s: State, log: seq<Mutation>, t: State, log': seq<Mutation>,
                         listing: seq<Ref>, fetches: seq<Fetch>, r: Outcome, done: nat)
    requires w.Valid() && FaithfulFetches(w, fetches)
  {
    var changed := ChangedRefs(s, listing);
    && log <= log'
    && Ends(w, known, {}, HashesOf(changed), fetches, r, done)
    && RefsLogged(log') == RefsLogged(log) + changed[..Upto(done, |changed|)]
    && Vanished(t.ref, listing) == {}
    && (r.Succeeded? && Apart(listing) ==> ChangedRefs(t, listing) == [])
  }

  lemma BatchesPoll(w: World, s: State, log: seq<Mutation>, mid: State, log': seq<Mutation>,
                    t: State, log'': seq<Mutation>, listing: seq<Ref>, fetches: seq<Fetch>, r: Outcome, done: nat)
    requires w.Valid() && FaithfulFetches(w, fetches)
    requires log <= log' && RefsLogged(log') == RefsLogged(log) && s.need == {}
    requires mid.need == s.need && mid.commit == s.commit && mid.remote == s.remote && mid.ref == s.ref - Vanished(s.ref, listing)
    requires var changed := ChangedRefs(s, listing);
             && Logs(mid, log', t, log'', changed[..Upto(done, |changed|)])
             && Ends(w, KnownSet(mid), mid.need, HashesOf(changed), fetches, r, done)
    ensures Polled(w, KnownSet(s), s, log, t, log'', listing, fetches, r, done)
  {
    var changed := ChangedRefs(s, listing);
    NothingVanished(s, mid, t, listing, changed[..Upto(done, |changed|)]);
    if r.Succeeded? && Apart(listing) {
      assert changed[..|changed|] == changed;
      PollsConverge(s, mid, t, listing);
    }
  }

  /** Refs that a listing shows are the only ones that logging its refs can add. */
  lemma NothingVanished(s: State, mid: State, t: State, listing: seq<Ref>, refs: seq<Ref>)
    requires mid.ref == s.ref - Vanished(s.ref, listing) && refs <= ChangedRefs(s, listing)
    requires forall n | n in t.ref :: n in mid.ref || PlainRef(n) in NamesOf(refs)
    ensures Vanished(t.ref, listing) == {}
  {
    ChangedRefsIs(s, listing);
    forall r | r in refs ensures r in listing {
      assert r in ChangedRefs(s, listing);
    }
  }

  /** The tracked refs that a listing of the remote does not show any more. */
  function Vanished(ref: map<string, Hash>, listing: seq<Ref>): set<string> {
    var shown := set r | r in listing :: r.name;
    set n | n in ref && PlainRef(n) !in shown
  }

  lemma {:induction false} ChangedRefsSame(s: State, t: State, listing: seq<Ref>)
    requires SameRefMaps(s, t)
    ensures ChangedRefs(s, listing) == ChangedRefs(t, listing)
  {
    if listing != [] {
      ChangedRefsSame(s, t, listing[..|listing| - 1]);
    }
  }

  /** A whole poll: what was missing is indexed first, and that does not change the refs. */
  lemma PollIs(w: World, s: State, log: seq<Mutation>, mid: State, log': seq<Mutation>,
               t: State, log'': seq<Mutation>, listing: seq<Ref>, fetches: seq<Fetch>, r: Outcome, done: nat)
    requires w.Valid() && FaithfulFetches(w, fetches)
    requires Grows(w, s, log, mid, log') && Polled(w, KnownSet(mid), mid, log', t, log'', listing, fetches, r, done)
    requires KnownSet(mid) == KnownThen(w, s)
    ensures Polled(w, KnownThen(w, s), s, log, t, log'', listing, fetches, r, done)
    ensures var ok := BatchesOk(w, KnownThen(w, s), {}, HashesOf(ChangedRefs(s, listing)), fetches);
            (r.Succeeded? ==> ok) && (AllPatient(fetches) ==> (r.Succeeded? <==> ok))
  {
    ChangedRefsSame(s, mid, listing);
    EndsIsAll(w, KnownThen(w, s), {}, HashesOf(ChangedRefs(s, listing)), fetches, r, done);
  }
}
