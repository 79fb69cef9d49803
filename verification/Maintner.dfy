/**
 The corpus as leader and as follower: maintner/maintner.go, and the polling of one Gerrit
 project in maintner/gerrit.go that fills the leader's log.
 */
module Maintner {
  import opened Basics
  import opened Git
  import opened GerritSpec
  import opened GerritReplay
  import opened GerritLog
  import opened Gerrit
  import opened Indexing
  import opened Polling

  /** An event read from a mutation source. */
  datatype StreamEvent = Mutated(mutation: Mutation) | StreamError | End

  /** The mutations before the first event that is not one. */
  function Leading(events: seq<StreamEvent>): (r: seq<Mutation>)
    ensures |r| <= |events|
    ensures forall i :: 0 <= i < |r| ==> events[i] == Mutated(r[i])
    ensures |r| < |events| ==> !events[|r|].Mutated?
  {
    if events == [] || !events[0].Mutated? then [] else [events[0].mutation] + Leading(events[1..])
  }

  /** The hashes to fetch are those of the refs to log, position by position. */
  predicate Aligned(hashes: seq<Hash>, refs: seq<Ref>) {
    |hashes| == |refs| && forall i :: 0 <= i < |refs| ==> hashes[i] == refs[i].hash
  }

  lemma AlignedKnown(hashes: seq<Hash>, refs: seq<Ref>, known: set<Hash>)
    requires Aligned(hashes, refs) && Members(hashes) <= known
    ensures forall r | r in refs :: r.hash in known
  {
    forall r | r in refs ensures r.hash in known {
      var i :| 0 <= i < |refs| && refs[i] == r;
      assert hashes[i] in Members(hashes);
    }
  }

  lemma AlignedSlices(hashes: seq<Hash>, refs: seq<Ref>, n: nat)
    requires Aligned(hashes, refs) && n <= |hashes|
    ensures Aligned(hashes[..n], refs[..n]) && Aligned(hashes[n..], refs[n..])
  {
  }

  /** The listing shows the plain ref. */
  predicate Shows(listing: seq<Ref>, name: string) {
    exists q | q in listing :: q.name == PlainRef(name)
  }

  /** The maps of the project are in step with the listing: they have no plain ref but those it shows, and each ref where it shows it. */
  ghost predicate InStep(remote: map<(int, int), Hash>, ref: map<string, Hash>, listing: seq<Ref>) {
    && (forall n | n in ref :: Shows(listing, n))
    && (Apart(listing) ==> forall q | q in listing :: HasRef(remote, ref, q))
  }

  lemma InStepIs(s: State, listing: seq<Ref>)
    requires Vanished(s.ref, listing) == {} && (Apart(listing) ==> ChangedRefs(s, listing) == [])
    ensures InStep(s.remote, s.ref, listing)
  {
    forall n | n in s.ref ensures Shows(listing, n) {
      assert n !in Vanished(s.ref, listing);
    }
    ChangedRefsIs(s, listing);
  }

  /** When nothing is asked for, the whole history of a known commit is in the log. */
  lemma HistoryIsLogged(w: World, s: State, log: seq<Mutation>, h: Hash)
    requires w.Valid() && Leads(w, s, log) && s.need == {} && h in s.commit
    ensures HistoryLogged(w, log, h)
  {
    forall a | IsAncestor(w, a, h) ensures a in Logged(log) {
      KnownHistoryIsLogged(w, s, h, a);
    }
  }

  class Replica {
    const project: GerritProject
    var log: seq<Mutation>

    constructor (project: GerritProject)
      requires project.Valid() && project.world.Valid() && project.View() == EMPTY_STATE
      ensures this.project == project && log == [] && Valid() && LeadsLog()
    {
      this.project := project;
      log := [];
    }

    ghost predicate Valid()
      reads this, project, project.corpus, project.corpus.objects, project.commit.Values, project.clObjects
    {
      && project.Valid() && project.world.Valid()
      && Consistent(project.world, project.View()) && Worklist(project.View())
    }

    /** Leader and log agree. */
    ghost predicate LeadsLog()
      reads this, project, project.corpus
    {
      project.world.Valid() && Leads(project.world, project.View(), log)
    }

    /** The corpus holds its old objects and new ones. */
    twostate predicate OnlyNew()
      reads this, project, project.corpus
    {
      && (forall o | o in project.corpus.objects :: o in old(project.corpus.objects) || fresh(o))
      && (forall o | o in project.clObjects :: o in old(project.clObjects) || fresh(o))
    }

    /** processMutationLocked. */
    method ProcessMutation(m: Mutation)
      requires Valid() && AddressedMutation(project.world, m)
      modifies project, project.corpus, project.corpus.objects, project.clObjects
      ensures Valid()
      ensures project.View() == Exec(project.world.rank, old(project.View()), Pieces(m))
      ensures OnlyNew()
    {
      match m {
        case GitMutation(p) => project.ProcessGitMutation(p);
        case GerritMutation(commits, deletedRefs, refs) => project.ProcessMutation(commits, deletedRefs, refs);
      }
      AddressedPieces(project.world, m);
      RunKeepsConsistent(project.world, old(project.View()), Pieces(m));
      RunKeepsWorklist(project.world.rank, old(project.View()), Pieces(m));
    }

    method FinishProcessing()
      requires Valid()
      modifies project, project.clObjects
      ensures Valid()
      ensures project.View() == FinishAll(project.world.rank, old(project.View()))
      ensures OnlyNew()
    {
      DoKeepsConsistent(project.world, project.View(), Finish);
      DoKeepsWorklist(project.world.rank, project.View(), Finish);
      project.FinishProcessing();
    }

    /** Processes the mutations of a log in order. */
    method ProcessAll(ms: seq<Mutation>)
      requires Valid() && forall m | m in ms :: AddressedMutation(project.world, m)
      modifies project, project.corpus, project.corpus.objects, project.clObjects
      ensures Valid()
      ensures project.View() == Exec(project.world.rank, old(project.View()), LogActions(ms))
      ensures OnlyNew()
    {
      ghost var s, rank := project.View(), project.world.rank;
      var i := 0;
      while i < |ms|
        invariant 0 <= i <= |ms|
        invariant Valid() && project.View() == Exec(rank, s, LogActions(ms[..i]))
        invariant OnlyNew()
      {
        LogActionsStep(rank, s, ms, i);
        ProcessMutation(ms[i]);
        i := i + 1;
      }
      assert ms[..i] == ms;
    }

    /** The follower's update loop. The clean-up happens only at an End; an error, or no more events, leaves it out. */
    method Update(events: seq<StreamEvent>) returns (ok: bool)
      requires Valid() && forall e | e in events && e.Mutated? :: AddressedMutation(project.world, e.mutation)
      modifies project, project.corpus, project.corpus.objects, project.clObjects
      ensures Valid()
      ensures var ms := Leading(events);
              && ok == (|ms| < |events| && events[|ms|].End?)
              && project.View() == Exec(project.world.rank, old(project.View()), if ok then FollowerActions(ms) else LogActions(ms))
    {
      var ms := Leading(events);
      forall m | m in ms ensures AddressedMutation(project.world, m) {
        var i :| 0 <= i < |ms| && ms[i] == m;
        assert events[i] in events;
      }
      ProcessAll(ms);
      ok := |ms| < |events| && events[|ms|].End?;
      if ok {
        FollowerActionsStep(project.world.rank, old(project.View()), ms);
        FinishProcessing();
      }
    }

    /**
     How a leader starts: it replays its own log. An ordered log over growing meta branches is one that it may lead
     from there.
     */
    method Initialize(events: seq<StreamEvent>) returns (ok: bool)
      requires Valid() && project.View() == EMPTY_STATE
      requires forall e | e in events && e.Mutated? :: AddressedMutation(project.world, e.mutation)
      modifies this`log, project, project.corpus, project.corpus.objects, project.clObjects
      ensures Valid() && log == Leading(events)
      ensures ok && LogOrdered(project.world, log) && MetaBranchesGrow(project.world, RefsLogged(log)) ==> LeadsLog()
    {
      ok := Update(events);
      log := Leading(events);
      if ok && LogOrdered(project.world, log) && MetaBranchesGrow(project.world, RefsLogged(log)) {
        forall m | m in log ensures AddressedMutation(project.world, m) {
          var i :| 0 <= i < |log| && log[i] == m;
          assert events[i] in events;
        }
        ReplayLeads(project.world, log);
      }
    }

    method ProcessAndFinish(m: Mutation)
      requires Valid() && AddressedMutation(project.world, m)
      modifies project, project.corpus, project.corpus.objects, project.clObjects
      ensures Valid()
      ensures project.View() == Added(project.world.rank, old(project.View()), m)
      ensures OnlyNew()
    {
      ProcessMutation(m);
      FinishProcessing();
    }

    /** The leader's addMutation: process, clean up, log. */
    method AddMutation(m: Mutation)
      requires Valid() && LeadsLog() && AddressedMutation(project.world, m)
      requires forall r | r in RefsIn(m) :: HistoryLogged(project.world, log, r.hash)
      modifies this`log, project, project.corpus, project.corpus.objects, project.clObjects
      ensures Valid() && LeadsLog()
      ensures project.View() == Added(project.world.rank, old(project.View()), m)
      ensures log == old(log) + [m]
      ensures OnlyNew()
    {
      AddKeepsLeads(project.world, project.View(), log, m);
      ProcessAndFinish(m);
      log := log + [m];
    }

    // ---- Polling a Gerrit project ----

    /** What every step of a poll keeps: leader and log agree. */
    twostate predicate StaysLeader()
      reads this, project, project.corpus, project.corpus.objects, project.commit.Values, project.clObjects
    {
      Valid() && LeadsLog() && OnlyNew()
    }

    /** One turn of syncCommits: index a commit that is asked for. */
    method IndexOne(git: Dir, hash: Hash, ghost s: State, ghost taken: nat)
      requires Valid() && LeadsLog() && Faithful(project.world, git) && hash in project.need && hash in git
      modifies this`log, project, project.corpus, project.corpus.objects, project.clObjects
      ensures StaysLeader()
      ensures Advances(project.world, git, s, taken, old(project.View()), old(log), project.View(), log)
    {
      TurnAdvances(project.world, git, s, taken, project.View(), log, hash);
      AddMutation(OneCommit(git[hash]));
    }

    /** Picks the commit to index. It fails if git does not have it. */
    method IndexAny(git: Dir, ghost s: State, ghost taken: nat) returns (ok: bool)
      requires Valid() && LeadsLog() && Faithful(project.world, git) && project.need != {}
      modifies this`log, project, project.corpus, project.corpus.objects, project.clObjects
      ensures StaysLeader()
      ensures ok ==> Advances(project.world, git, s, taken, old(project.View()), old(log), project.View(), log)
      ensures !ok ==> project.View() == old(project.View()) && log == old(log)
      ensures !ok ==> !AllWhole(project.world, Have(git, project.View()), project.need)
    {
      NonEmpty(project.need);
      var hash :| hash in project.need;
      ok := hash in git;
      if ok {
        IndexOne(git, hash, s, taken);
      } else {
        NotToBeHad(project.world, git, project.View(), hash);
      }
    }

    /**
     syncCommits, watched for some turns: index commits until none is asked for. Whatever git holds, leader and log
     agree after every turn. It still runs after more turns than git has commits only if it may run for ever, and until
     then it succeeds exactly when all the history of what is asked for is known, or in git and parses.
     */
    method SyncCommits(git: Dir, turns: nat) returns (r: Outcome)
      requires Valid() && LeadsLog() && Faithful(project.world, git)
      modifies this`log, project, project.corpus, project.corpus.objects, project.clObjects
      ensures StaysLeader() && Synced(project.world, git, turns, old(project.View()), old(log), project.View(), log, r)
    {
      var ok, taken := true, 0;
      GrowsNone(project.world, project.View(), log);
      while ok && project.need != {} && taken < turns
        invariant taken <= turns
        invariant StaysLeader()
        invariant Syncing(project.world, git, old(project.View()), old(log), project.View(), log, taken, ok)
        decreases ok, turns - taken
      {
        ok := IndexOnwards(git, old(project.View()), old(log), taken);
        taken := if ok then taken + 1 else taken;
      }
      r := if !ok then Failed else if project.need == {} then Succeeded else Running;
      SyncedIs(project.world, git, turns, old(project.View()), old(log), project.View(), log, ok);
    }

    method IndexOnwards(git: Dir, ghost s: State, ghost before: seq<Mutation>, ghost taken: nat) returns (ok: bool)
      requires Valid() && LeadsLog() && Faithful(project.world, git) && project.need != {}
      requires Syncing(project.world, git, s, before, project.View(), log, taken, true)
      modifies this`log, project, project.corpus, project.corpus.objects, project.clObjects
      ensures StaysLeader()
      ensures Syncing(project.world, git, s, before, project.View(), log, if ok then taken + 1 else taken, ok)
    {
      ok := IndexAny(git, s, taken);
      if ok {
        IndexesTrans(project.world, git, s, before, old(project.View()), old(log), project.View(), log);
      }
    }

    /** On a complete repository indexing ends with nothing asked for, so the check succeeds. */
    method SyncAndCheck(git: Dir, turns: nat) returns (ok: bool)
      requires Valid() && LeadsLog() && Faithful(project.world, git)
      modifies this`log, project, project.corpus, project.corpus.objects, project.clObjects
      ensures StaysLeader()
      ensures ok ==> old(AllWhole(project.world, Have(git, project.View()), project.need))
      ensures turns > |git| ==> (ok <==> old(AllWhole(project.world, Have(git, project.View()), project.need)))
      ensures turns > |git| && Complete(git) && old(project.need) <= git.Keys ==> ok
    {
      if Complete(git) && project.need <= git.Keys {
        CompleteIsWhole(project.world, git, Have(git, project.View()), project.need);
      }
      var r := SyncCommits(git, turns);
      if turns > |git| {
        PatientSynced(project.world, git, turns, old(project.View()), old(log), project.View(), log, r);
      }
      ok := r.Succeeded?;
      if ok {
        ok := Check();
      }
    }

    /** Asks for the commits of a batch that are not known. */
    method MarkAll(hashes: seq<Hash>)
      requires Valid() && LeadsLog()
      modifies project`need
      ensures Valid() && LeadsLog()
      ensures project.need == old(project.need) + (Members(hashes) - project.known.Keys)
    {
      MarkKeepsLeads(project.world, project.View(), log, Members(hashes) - project.known.Keys);
      MarkEach(project, hashes);
    }

    /** Indexes the commits of a batch with all their history. */
    method IndexBatch(git: Dir, turns: nat, batch: seq<Hash>) returns (r: Outcome)
      requires Valid() && LeadsLog() && Faithful(project.world, git)
      modifies this`log, project, project.corpus, project.corpus.objects, project.clObjects
      ensures StaysLeader() && LogsNothing(old(project.View()), old(log), project.View(), log)
      ensures r.Succeeded? ==> Members(batch) <= project.known.Keys
      ensures BatchEnded(project.world, git, turns, old(project.View()), project.View(), old(project.need) + Members(batch), r)
    {
      MarkAll(batch);
      ghost var s := project.View();
      assert project.corpus.objects == old(project.corpus.objects) && project.clObjects == old(project.clObjects);
      r := SyncCommits(git, turns);
      assert OnlyNew();
      MarkedIsIndexed(project.world, git, turns, old(project.View()), batch, s, old(log), project.View(), log, r);
    }

    /** Logs refs. Nothing is asked for any more, so the history of each is in the log. */
    method LogRefs(refs: seq<Ref>)
      requires Valid() && LeadsLog() && project.need == {}
      requires forall r | r in refs :: r.hash in project.known
      modifies this`log, project, project.corpus, project.corpus.objects, project.clObjects
      ensures StaysLeader() && Logs(old(project.View()), old(log), project.View(), log, refs)
      ensures project.need == {} && project.known == old(project.known)
    {
      var m := GerritMutation([], [], refs);
      forall r | r in refs ensures HistoryLogged(project.world, log, r.hash) {
        HistoryIsLogged(project.world, project.View(), log, r.hash);
      }
      RefsSettle(project.world, project.View(), log, refs);
      LogsMore(log, m);
      AddMutation(m);
    }

    /** One batch: index its commits, then log its refs. */
    method SyncBatch(git: Dir, turns: nat, batch: seq<Hash>, refs: seq<Ref>) returns (r: Outcome)
      requires Valid() && LeadsLog() && Faithful(project.world, git) && Aligned(batch, refs)
      modifies this`log, project, project.corpus, project.corpus.objects, project.clObjects
      ensures StaysLeader() && Batched(project.world, git, turns, old(project.View()), old(log), project.View(), log, batch, refs, r)
    {
      r := IndexBatch(git, turns, batch);
      if r.Succeeded? {
        AlignedKnown(batch, refs, project.known.Keys);
        ghost var s, before := project.View(), log;
        LogRefs(refs);
        LogsAfter(old(project.View()), old(log), s, before, project.View(), log, refs);
        assert KnownSet(project.View()) == KnownSet(s);
      } else {
        LogsNone(old(project.View()), old(log), project.View(), log);
      }
    }

    /** Takes the next batch off the work to do. */
    method NextBatch(git: Dir, turns: nat, hashes: seq<Hash>, refs: seq<Ref>)
      returns (r: Outcome, toFetch: seq<Hash>, changedRefs: seq<Ref>)
      requires Valid() && LeadsLog() && Faithful(project.world, git) && Aligned(hashes, refs)
      modifies this`log, project, project.corpus, project.corpus.objects, project.clObjects
      ensures StaysLeader()
      ensures Batched(project.world, git, turns, old(project.View()), old(log), project.View(), log,
                      hashes[..Next(|hashes|)], refs[..Next(|refs|)], r)
      ensures if r.Succeeded? then toFetch == hashes[Next(|hashes|)..] && changedRefs == refs[Next(|refs|)..]
              else toFetch == hashes && changedRefs == refs
    {
      var batch := hashes;
      if |batch| > BATCH_SIZE {
        batch := batch[..BATCH_SIZE];
      }
      assert batch == hashes[..Next(|hashes|)];
      AlignedSlices(hashes, refs, |batch|);
      r := SyncBatch(git, turns, batch, refs[..|batch|]);
      toFetch := if r.Succeeded? then hashes[|batch|..] else hashes;
      changedRefs := if r.Succeeded? then refs[|batch|..] else refs;
    }

    /**
     The batches of a poll. Each is preceded by a fetch of its own, which may fail; one that is not listed does. The refs
     logged are those of the batches before the first one that does not succeed, whole and in order.
     */
    method SyncBatches(hashes: seq<Hash>, refs: seq<Ref>, fetches: seq<Fetch>) returns (r: Outcome, done: nat)
      requires Valid() && LeadsLog() && FaithfulFetches(project.world, fetches) && Aligned(hashes, refs)
      modifies this`log, project, project.corpus, project.corpus.objects, project.clObjects
      ensures StaysLeader() && Logs(old(project.View()), old(log), project.View(), log, refs[..Upto(done, |refs|)])
      ensures Ends(project.world, KnownSet(old(project.View())), old(project.need), hashes, fetches, r, done)
      ensures r.Succeeded? && (old(project.need) == {} || hashes != []) ==> project.need == {}
    {
      var toFetch, changedRefs := hashes, refs;
      r, done := Succeeded, 0;
      BatchingStarts(project.world, project.View(), log, hashes, refs, fetches);
      while r.Succeeded? && |toFetch| > 0
        invariant toFetch == hashes[Upto(done, |hashes|)..] && changedRefs == refs[Upto(done, |refs|)..]
        invariant StaysLeader()
        invariant Batching(project.world, old(project.View()), old(log), project.View(), log, hashes, refs, fetches, r, done)
        decreases r.Succeeded?, |toFetch|
      {
        if done < |fetches| && fetches[done].Fetched? {
          r, toFetch, changedRefs, done := TakeBatch(hashes, refs, fetches, toFetch, changedRefs, done, old(project.View()), old(log));
        } else {
          r := Failed;
        }
      }
    }

    method TakeBatch(ghost hashes: seq<Hash>, ghost refs: seq<Ref>, fetches: seq<Fetch>,
                     toFetch: seq<Hash>, changedRefs: seq<Ref>, done: nat, ghost s: State, ghost before: seq<Mutation>)
      returns (r: Outcome, toFetch': seq<Hash>, changedRefs': seq<Ref>, done': nat)
      requires Valid() && LeadsLog() && FaithfulFetches(project.world, fetches) && Aligned(hashes, refs)
      requires toFetch == hashes[Upto(done, |hashes|)..] && changedRefs == refs[Upto(done, |refs|)..] && toFetch != []
      requires done < |fetches| && fetches[done].Fetched?
      requires Batching(project.world, s, before, project.View(), log, hashes, refs, fetches, Succeeded, done)
      modifies this`log, project, project.corpus, project.corpus.objects, project.clObjects
      ensures StaysLeader()
      ensures done' == if r.Succeeded? then done + 1 else done
      ensures toFetch' == hashes[Upto(done', |hashes|)..] && changedRefs' == refs[Upto(done', |refs|)..]
      ensures Batching(project.world, s, before, project.View(), log, hashes, refs, fetches, r, done')
    {
      NextBatchIs(hashes, done);
      NextBatchIs(refs, done);
      AlignedSlices(hashes, refs, Upto(done, |hashes|));
      assert FaithfulFetch(project.world, fetches[done]);
      r, toFetch', changedRefs' := NextBatch(fetches[done].git, fetches[done].turns, toFetch, changedRefs);
      done' := if r.Succeeded? then done + 1 else done;
      BatchingStep(project.world, s, before, old(project.View()), old(log), project.View(), log, hashes, refs, fetches, done, r);
    }

    /** Reads a listing of the remote's refs: those that moved, and the commits to fetch for them. */
    method ReadListing(listing: seq<Ref>) returns (toFetch: seq<Hash>, changedRefs: seq<Ref>)
      ensures changedRefs == ChangedRefs(project.View(), listing) && Aligned(toFetch, changedRefs)
    {
      toFetch, changedRefs := [], [];
      for i := 0 to |listing|
        invariant changedRefs == ChangedRefs(project.View(), listing[..i]) && Aligned(toFetch, changedRefs)
      {
        var r := listing[i];
        assert listing[..i + 1][..i] == listing[..i];
        var needFetch := false;
        match r.name {
          case ChangeRef(number, version) =>
            needFetch := (number, version) !in project.remote || project.remote[(number, version)] != r.hash;
          case PlainRef(name) =>
            needFetch := IsTracked(name) && (name !in project.ref || project.ref[name] != r.hash);
          case BadChangeRef =>
          case ConfigRef =>
        }
        if needFetch {
          toFetch, changedRefs := toFetch + [r.hash], changedRefs + [r];
        }
      }
      assert listing[..|listing|] == listing;
    }

    /** Logs the deletion of the plain refs that a listing no longer shows. */
    method LogDeleted(listing: seq<Ref>)
      requires Valid() && LeadsLog()
      modifies this`log, project, project.corpus, project.corpus.objects, project.clObjects
      ensures StaysLeader() && old(log) <= log && RefsLogged(log) == RefsLogged(old(log))
      ensures project.need == old(project.need) && project.known == old(project.known)
      ensures project.ref == old(project.ref) - Vanished(old(project.ref), listing) && project.remote == old(project.remote)
      ensures forall n | n in old(project.ref) :: n in project.ref <==> Shows(listing, n)
    {
      var names := Listed(Vanished(project.ref, listing));
      assert (set n | n in names) == Vanished(project.ref, listing);
      if |names| > 0 {
        var m := GerritMutation([], names, []);
        AddDeletion(project.world.rank, project.View(), names);
        LogsMore(log, m);
        AddMutation(m);
      } else {
        assert Vanished(project.ref, listing) == {};
      }
    }

    /** syncMissingCommits: first index what earlier runs left out. */
    method SyncMissingCommits(fetch: Fetch) returns (r: Outcome)
      requires Valid() && LeadsLog() && FaithfulFetch(project.world, fetch)
      modifies this`log, project, project.corpus, project.corpus.objects, project.clObjects
      ensures StaysLeader() && Grows(project.world, old(project.View()), old(log), project.View(), log)
      ensures Missed(project.world, old(project.View()), project.View(), fetch, r)
    {
      GrowsNone(project.world, project.View(), log);
      if project.need == {} {
        NothingMissing(project.world, project.View(), fetch);
        return Succeeded;
      }
      if fetch.NotFetched? {
        return Failed;
      }
      r := SyncCommits(fetch.git, fetch.turns);
      MissedIs(project.world, old(project.View()), old(log), project.View(), log, fetch, r);
    }

    /** The rest of a poll, once nothing is missing and the remote has been listed. */
    method SyncListing(listing: seq<Ref>, fetches: seq<Fetch>) returns (r: Outcome, done: nat)
      requires Valid() && LeadsLog() && FaithfulFetches(project.world, fetches) && project.need == {}
      modifies this`log, project, project.corpus, project.corpus.objects, project.clObjects
      ensures StaysLeader() && (r.Succeeded? ==> project.need == {})
      ensures Polled(project.world, KnownSet(old(project.View())), old(project.View()), old(log), project.View(), log,
                     listing, fetches, r, done)
    {
      var toFetch, changedRefs := ReadListing(listing);
      LogDeleted(listing);
      ghost var s, before := project.View(), log;
      r, done := SyncBatches(toFetch, changedRefs, fetches);
      assert toFetch == HashesOf(changedRefs);
      BatchesPoll(project.world, old(project.View()), old(log), s, before, project.View(), log, listing, fetches, r, done);
    }

    /**
     syncOnce: one poll of the project. `missing` and `fetches` are what the git directory holds after each fetch.
     Whatever fails on the way, and wherever the poll is watched, leader and log agree, so every logged ref has its whole
     history logged before it, and the refs logged are those of the first `done` batches. The poll succeeds only if
     everything is fetched and can be indexed, and it does then if it is watched for long enough. When it has
     succeeded, it has logged exactly the refs that moved, in the order of the listing, asks for nothing more, tracks no
     ref that the listing does not show, has every listed ref at the hash that is listed, and the same listing would change
     nothing.
     */
    method SyncOnce(missing: Fetch, listing: Option<seq<Ref>>, fetches: seq<Fetch>) returns (r: Outcome, done: nat)
      requires Valid() && LeadsLog() && FaithfulFetch(project.world, missing) && FaithfulFetches(project.world, fetches)
      modifies this`log, project, project.corpus, project.corpus.objects, project.clObjects
      ensures StaysLeader() && old(log) <= log && (r.Succeeded? ==> project.need == {})
      ensures PollEnded(project.world, old(project.View()), missing, listing, fetches, r, done)
      ensures var changed := if listing.Some? then ChangedRefs(old(project.View()), listing.value) else [];
              RefsLogged(log) == RefsLogged(old(log)) + changed[..Upto(done, |changed|)]
      ensures r.Succeeded? ==> Vanished(project.ref, listing.value) == {}
      ensures r.Succeeded? && Apart(listing.value) ==> ChangedRefs(project.View(), listing.value) == []
      ensures r.Succeeded? ==> InStep(project.remote, project.ref, listing.value)
    {
      done := 0;
      r := SyncMissingCommits(missing);
      if r.Succeeded? && listing.Some? {
        ghost var s, before := project.View(), log;
        r, done := SyncListing(listing.value, fetches);
        PollIs(project.world, old(project.View()), old(log), s, before, project.View(), log, listing.value, fetches, r, done);
        if r.Succeeded? {
          InStepIs(project.View(), listing.value);
        }
      } else if r.Succeeded? {
        r := Failed;
      }
    }

    /** check: nothing is asked for, and every known commit is whole and has known parents. */
    method Check() returns (ok: bool)
      requires Valid()
      ensures ok <==> project.need == {}
    {
      if project.need != {} {
        return false;
      }
      var todo := project.commit.Keys;
      while todo != {}
        invariant todo <= project.commit.Keys
        decreases todo
      {
        NonEmpty(todo);
        var hash :| hash in todo;
        var gc := project.commit[hash];
        assert project.KeepsCommit(hash, project.known[hash]);
        if gc.committer == Sentinel || gc.hash != hash {
          return false;
        }
        var i := 0;
        while i < |gc.parents|
          invariant 0 <= i <= |gc.parents|
        {
          assert gc.parents[i].hash == project.known[hash][i];
          if gc.parents[i].hash !in project.commit {
            return false;
          }
          i := i + 1;
        }
        todo := todo - {hash};
      }
      ok := true;
    }
  }

  method MarkEach(project: GerritProject, hashes: seq<Hash>)
    requires project.commit.Keys == project.known.Keys
    modifies project`need
    ensures project.need == old(project.need) + (Members(hashes) - project.known.Keys)
  {
    for i := 0 to |hashes|
      invariant project.need == old(project.need) + (Members(hashes[..i]) - project.known.Keys)
    {
      project.MarkNeededCommit(hashes[i]);
      MembersMore(hashes, i);
    }
    assert hashes[..|hashes|] == hashes;
  }

  /** The names of a set in some order. */
  method Listed(names: set<string>) returns (r: seq<string>)
    ensures forall n :: n in r <==> n in names
  {
    var todo := names;
    r := [];
    while todo != {}
      invariant todo <= names
      invariant forall n :: n in r <==> n in names - todo
      decreases todo
    {
      var n :| n in todo;
      r, todo := r + [n], todo - {n};
    }
  }

  lemma LogActionsStep(rank: Hash -> nat, s: State, ms: seq<Mutation>, i: nat)
    requires i < |ms|
    ensures Exec(rank, s, LogActions(ms[..i + 1])) == Exec(rank, Exec(rank, s, LogActions(ms[..i])), Pieces(ms[i]))
  {
    assert ms[..i + 1][..i] == ms[..i];
    ExecAppend(rank, s, LogActions(ms[..i]), Pieces(ms[i]));
  }

  lemma FollowerActionsStep(rank: Hash -> nat, s: State, ms: seq<Mutation>)
    ensures Exec(rank, s, FollowerActions(ms)) == FinishAll(rank, Exec(rank, s, LogActions(ms)))
  {
    var acts := FollowerActions(ms);
    assert acts[..|acts| - 1] == LogActions(ms);
  }
}
