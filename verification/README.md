# Verified models of golang/build

This project models the parts of the Go build system's repository that hold state, run concurrently or do careful
arithmetic, and proves what they promise.

* **maintner**, the replicated corpus. A leader polls Gerrit and GitHub, turns what changed into mutations, processes
  each one, cleans up, and appends it to a log. Followers mirror the log segment by segment, check it against what
  they have already read, process the new part, and clean up once. `Git.dfy`, `GitLaws.dfy` and `Ancestry.dfy` are the
  commit graph with its placeholders. `GerritSpec.dfy`, `GerritReplay.dfy`, `GerritAgreement.dfy`,
  `MetaLaws.dfy`, `GerritLog.dfy`, `GerritLaws.dfy`, `Interleaving.dfy`, `Indexing.dfy`, `Polling.dfy`, `Gerrit.dfy` and `Maintner.dfy` are one Gerrit
  project, its changelists (CLs), its worklist of commits to fetch, its polls, and leader and follower. `NetSource.dfy`
  and `NetStream.dfy` are the mirrored log. `GitHubSpec.dfy`, `GitHubLaws.dfy` and `GitHub.dfy` are issues and the diffs
  that update them. `Lines.dfy` and `LabelVotes.dfy` are the votes on a CL.
* **pargzip**, the parallel compressor (`Pargzip.dfy`), as a machine of interleaved steps.
* **livelog**, a log with one writer and many readers (`LiveLog.dfy`), as objects and as a machine of interleaved steps.
* **relnote**'s removal of empty sections (`EmptySections.dfy`), in place on a shared array.
* The coordinator's **humanDuration** (`HumanDuration.dfy`), in a fixed buffer.

`Basics.dfy` holds small shared types. Where the code works by updating things in place, the model is a class or an
array method whose contract ties the new state to a specification function. The laws are proved about those functions,
for all inputs, all runs or all interleavings. SHA-224 is a collision-free function, git is content-addressed and
acyclic, and gzip is a pair of functions with the law of concatenated members from section 2.2 of RFC 1952. What the
network, the disk, git, the scheduler and the underlying writer do is a script or a choice of steps, and every theorem
quantifies over it. A poll has a git directory of its own after each fetch, which may lack commits or hold some that do
not parse; a loop that may run for ever is watched for any number of turns. The source's int64 sizes, counters and line
numbers are unbounded integers, except in `HumanDuration.dfy`, where the width is the point.

## Results that differ from what one might expect

* `syncSeg` can report success for a wrong or missing file, exactly when the listing gives a segment with data, or one
  that is still growing, the checksum of no data (`NetSource.RightFileExactlyWhenUntroubled`).
* `syncSeg` starts over at most once if the growing file can be removed (`NetSource.AtMostOneRetry`). If it cannot, and
  it is at least as long as the segment and does not match, `syncSeg` makes no request and never returns, not even when
  the context ends (`NetSource.NeverReturns`, `NetSource.FailureEndsIt`).
* Delivery is exactly once if and only if no call sends bytes from the local cache and every list of new segments is
  read to its end (`NetStream.ExactlyOnceExactly`). A call that starts offline sends bytes that are sent again later,
  and a read that stops early loses bytes for good, because the log counts as delivered before it is read
  (`NetStream.OfflineRun`, `NetStream.InterruptedRun`, `NetStream.OfflineIsRepeated`, `NetStream.UnreadIsLost`).
* `syncCommits` may go on for ever if and only if a commit that does not parse is asked for, or is reached from one that
  is through unknown commits of the git directory. Otherwise it takes at most one turn for each unknown commit of the
  directory (`Indexing.EndsExactly`). Leader and log agree after every turn even then (`Maintner.Replica.SyncCommits`).
* Polling an issue makes it what GitHub reports with two exceptions: an issue recorded as not existing, or as no pull
  request, that otherwise agrees with GitHub already, and an author or closer whose login GitHub now gives to another
  user, because only logins are compared (`GitHubLaws.PollingBecomes`, `GitHubLaws.LoginTakenOver`).
* Polling an issue twice reports something the second time exactly when GitHub's creation time is not the recorded one,
  or when the first poll gives a new login to a user on record whose old login GitHub now gives to the author or closer
  (`GitHubLaws.PollingTwiceIsIdle`).
* `lineValueOK` finds the first line that begins with a prefix exactly when the prefix does not occur twice in a row
  before that line, and finds nothing exactly when there is neither (`Lines.FoundIsALine`, `Lines.NothingIsFound`,
  `Lines.NotAlwaysALine`).
* Leader and follower agree if meta branches only grow, as Gerrit's do. If a branch is replaced they agree if and only
  if its last head is private if an earlier one was, names a status unless the earlier ones leave "new", and names a
  branch unless they leave none (`GerritAgreement.LeaderFollowerAgreeExactly`, `GerritAgreement.ReplacedHeadsDiffer`).
* The comment above `removeEmptySections` keeps a heading if a block that is no heading follows before the next heading
  of the same level. The code keeps it if and only if, besides, no heading of a smaller level comes before such a block
  (`EmptySections.KeepsExactly`). Of headings of levels 2 and 1 followed by text it removes the first
  (`EmptySections.CommentDiffers`).
* `addMutation` logs after it has let go of the corpus, so the log of several pollers can have another order than the
  leader's processing had. Another project's commit may come any number of mutations later: whoever reads the log reaches
  the same state (`Interleaving.OthersMayComeLater`, `Interleaving.ReorderedFollowersCatchUp`).

## Model

| member | source | states |
|---|---|---|
| `Git.Corpus.ProcessGitCommit` | maintner/git.go:344-466 | Filing a commit fills its placeholder or creates its entry, adds placeholders for unknown parents, and fails without touching the entry when the header does not parse; every parent pointer stays the map's own entry |
| `Git.Corpus.ReadHeader` | maintner/git.go:384-448 | The header loop collects the parents and the committer, in order, and reports whether the header parses |
| `Git.Corpus.ParentEntry` | maintner/git.go:388-398 | The entry of a parent: the known one, or a new placeholder that is put into the map |
| `Git.Corpus.Overwrite` | maintner/git.go:449-454 | A placeholder is overwritten in place, so pointers to it see the commit |
| `GitLaws.InstallAllIsGraphOf` | maintner/git.go:344-466 | The graph after any sequence of filings is one read off the set of commits, with no order in it |
| `GitLaws.Confluence` | maintner/git.go:344-466 | Any order, with any repetition, gives the same graph |
| `GitLaws.NoPlaceholderIffParentClosed` | maintner/git.go:388-398 | No placeholder is left exactly when every parent mentioned was itself filed |
| `GitLaws.RefilingIsIdle` | maintner/git.go:344-466 | Filing a commit again changes nothing |
| `GitLaws.HeaderAppend` | maintner/git.go:384-448 | The parents are those of the parent lines, in order, and the committer is that of the last committer line |
| `GitLaws.FilingIs` | maintner/git.go:344-466 | A commit that parses is held with its parents, its committer and its text; one without a frame does nothing; every other entry stays, and what is new beside it is a placeholder for one of its parents |
| `Ancestry.HasAncestor` | maintner/git.go:91-93 | True exactly when the ancestor's hash is reachable by one or more parent steps, on every finite graph, with cycles or without |
| `Ancestry.Search` | maintner/git.go:95-113 | The recursion with the shared memo: a false entry means not reachable except through commits still being searched; it ends because each call marks one more commit |
| `Ancestry.ClearNeverReaches` | maintner/git.go:95-113 | A set of commits from which no step leads to the ancestor or out of the set never reaches it |
| `GerritSpec.RunKeepsWorklist` | maintner/gerrit.go:754-825 | Every run keeps need disjoint from the known commits, and every parent of a known commit known or needed |
| `GerritSpec.RunKeepsConsistent` | maintner/gerrit.go:754-913 | Every run over a repository's own commits holds only those, and every dirty CL has a meta ref |
| `GerritReplay.WalkIsHistory` | maintner/gerrit.go:649-668 | On a known linear history the walk returns the whole of it, newest first, and ends at the root |
| `GerritReplay.HistorySuffix` | maintner/gerrit.go:855-913 | The history of an older head is the end of the history of a newer one |
| `MetaLaws.CleanUpAtChild` | maintner/gerrit.go:855-913 | On a linear meta branch a clean-up at a head adds to one at its only parent: its message and itself come last, its status, branch and private mark overrule, and the creation time stays |
| `MetaLaws.CleanUpAtRoot` | maintner/gerrit.go:855-913 | A clean-up at a root leaves what its one commit says, its time as the creation time, and otherwise the status new |
| `MetaLaws.CleanUpAtPlaceholder` | maintner/gerrit.go:855-913 | A clean-up at a commit that has not arrived yet finds an empty commit |
| `MetaLaws.CleanUpFails` | maintner/gerrit.go:865-896 | A walk that meets a merge leaves the CL as it was, but for the private mark of what it saw |
| `GerritReplay.RunKeepsInv` | maintner/gerrit.go:754-913 | In every run whose meta refs point at filed linear histories, every CL is what the clean-ups at the heads seen so far make of it |
| `GerritReplay.DeriveAllIs` | maintner/gerrit.go:873-913 | Clean-ups at several heads leave the private mark of any, the status of the latest that names one and otherwise "new", and the branch of the latest that names one |
| `GerritReplay.LastIsEnough` | maintner/gerrit.go:855-913 | Cleaning up at all the heads gives what cleaning up at the last gives exactly when the last is private if any was, names a status unless the others leave "new", and names a branch unless the others leave none |
| `GerritReplay.FixupsAgreeExactly` | maintner/gerrit.go:843-913 | After the last clean-up every CL is as computed from scratch if and only if for every CL the last head cleaned up tells all |
| `GerritReplay.HigherTellsMore` | maintner/gerrit.go:855-913 | On a linear branch a higher head tells all that a lower one does |
| `GerritReplay.FixupsAgreeWithRecomputation` | maintner/gerrit.go:843-913 | On branches that only grow every CL is as computed from scratch after the last clean-up, whenever earlier clean-ups happened |
| `GerritReplay.CleanupTimesDoNotMatter` | maintner/gerrit.go:843-913 | Two runs over the same pieces, each cleaned up at the end and otherwise at any times, reach the same state |
| `GerritReplay.LeaderFollowerAgree` | maintner/maintner.go:277-330 | Cleaning up after every mutation and cleaning up once at the end reach the same state on every well-formed log |
| `GerritAgreement.LeaderFollowerAgreeExactly` | maintner/maintner.go:277-330 | On every log whose meta refs point at logged linear histories, leader and follower agree if and only if for every CL the last head that a mutation leaves tells all that the earlier ones do |
| `GerritAgreement.ReplacedBranch` | maintner/maintner.go:277-330 | For a log that replaces one head by an unrelated one, the same condition spelled out on the two messages |
| `GerritAgreement.ReplacedHeadsDiffer` | maintner/maintner.go:277-330 | Three logs on which leader and follower differ: a private, an abandoned and a branch-naming head replaced by an empty one |
| `GerritLog.AddKeepsLeads` | maintner/maintner.go:313-330 | Adding a mutation whose refs have their history in the log keeps leader and log in agreement and the log in order |
| `GerritLog.KnownHistoryIsLogged` | maintner/gerrit.go:1195-1220 | When nothing is asked for, the whole history of every known commit is known |
| `GerritLog.AddDeletion` | maintner/gerrit.go:771-778 | A mutation of deleted refs takes exactly those refs away and learns no commit |
| `GerritLog.ChangedRefsIs` | maintner/gerrit.go:1112-1134 | The changed refs are exactly the listed ones that the project's maps do not have at the listed hash, but for those under refs/users/, refs/meta/ or refs/cache-automerge/, which are not tracked |
| `GerritLog.ChangedInOrder` | maintner/gerrit.go:1112-1134 | They come in the order of the listing |
| `GerritLog.OrderedLogIsWellFormed` | maintner/gerrit.go:1161-1190 | A log in which each ref comes after its commit's whole history, over growing meta branches, is well-formed for replay |
| `GerritLog.FollowersCatchUp` | maintner/maintner.go:277-330 | Whoever replays a leader's log reaches the leader's state, but for what the leader is still asking for |
| `GerritLog.ReplayLeads` | maintner/maintner.go:277-330 | Whoever has replayed an ordered log over growing meta branches may lead it from there |
| `Interleaving.InstallsCommute` | maintner/git.go:344-466 | Filing two commits in either order gives the same graph |
| `Interleaving.PassesLog` | maintner/maintner.go:313-330 | In an ordered log another project's commit may be read before or after any mutations of this project |
| `Interleaving.OthersMayComeLater` | maintner/maintner.go:313-330 | Whoever reads the log comes to the same state if another project's commit is logged later than it was processed |
| `Interleaving.ReorderedFollowersCatchUp` | maintner/maintner.go:277-330 | So a follower of the log in that other order reaches the leader's state, but for what the leader is still asking for |
| `GerritLog.PointingSettles` | maintner/gerrit.go:780-824 | Refs that were pointed at known commits need no fetch any more, and other refs are as before |
| `GerritLaws.RunKeepsRefs` | maintner/gerrit.go:780-824 | In every run there is a CL exactly for each number with a change ref; its meta is that of the meta ref, and its commit and version are those of one of its patch-set refs |
| `GerritLaws.StrayRefIsIgnored` | maintner/gerrit.go:780-798 | A ref to a name that the corpus has never heard of, a malformed change ref and the config ref do nothing |
| `GerritLaws.RefMovesCL` | maintner/gerrit.go:780-824 | A patch-set ref moves the CL's commit and version to it, a meta ref its meta and makes it dirty; nothing else of any CL moves |
| `GerritLaws.RefsComeLast` | maintner/gerrit.go:754-825 | A ref to a commit of the same mutation counts, even if the mutation deletes that ref too |
| `GerritLaws.DeletedIsGone` | maintner/gerrit.go:771-778 | A deleted ref that the mutation does not set is gone |
| `Gerrit.ReverseSlice` | maintner/gerrit.go:739-751 | Reversing in place gives the elements last first |
| `Gerrit.GerritCL.UpdateBranch` | maintner/gerrit.go:371-380 | The branch is the one named by the newest meta that names one, even if only refs/heads/ is named, and otherwise stays |
| `Gerrit.GerritCL.SetDerived` | maintner/gerrit.go:898-913 | A complete walk sets status, messages, metas, creation time and branch as derived from the history |
| `Gerrit.GerritProject.MarkNeededCommit` | maintner/gerrit.go:926-932 | An unknown commit is asked for; a known one is not |
| `Gerrit.GerritProject.FileOne` | maintner/gerrit.go:757-769 | A commit of the mutation is filed, indexed, no longer needed, and its unknown parents are |
| `Gerrit.GerritProject.SetOneRef` | maintner/gerrit.go:780-824 | A ref moves the remote map, the plain refs or a CL's meta or commit, and a meta ref makes the CL dirty; a ref to an unknown name is ignored |
| `Gerrit.GerritProject.GetOrCreateCL` | maintner/gerrit.go:935-946 | The CL of that number, or a new one put into the map |
| `Gerrit.GerritProject.ProcessMutation` | maintner/gerrit.go:754-825 | Commits, then deleted refs, then refs, each with its own effect on the objects |
| `Gerrit.GerritProject.ProcessGitMutation` | maintner/maintner.go:333-346 | A commit of another project only fills the shared graph |
| `Gerrit.GerritProject.WalkMetas` | maintner/gerrit.go:865-896 | The walk gathers status, messages and metas of the branch, marks the CL private on the way, and reports how it ended |
| `Gerrit.GerritProject.FinishProcessingCL` | maintner/gerrit.go:855-913 | The CL becomes what a clean-up derives: on a linear branch what a clean-up at the parent tells, then the head's own message and meta; a walk that fails leaves all but the private mark |
| `Gerrit.GerritProject.FinishProcessing` | maintner/gerrit.go:843-849 | Every dirty CL is cleaned up, in any order, and none is dirty afterwards |
| `Maintner.Replica.Update` | maintner/maintner.go:277-310 | A follower processes the mutations of a stream up to its end, cleans up once, and reports a failed stream |
| `Maintner.Replica.Initialize` | maintner/maintner.go:277-310 | A leader starts by replaying its log; if the log is ordered and its meta branches grow, it leads it |
| `Maintner.Replica.AddMutation` | maintner/maintner.go:313-330 | The leader processes, cleans up and logs, and stays in agreement with its log |
| `Indexing.CompleteIsWhole` | maintner/gerrit.go:1195-1231 | In a git directory whose commits all parse and have their parents there, all history of a commit is to be had |
| `Polling.IndexedAll` | maintner/gerrit.go:1195-1231 | When nothing is asked for any more, everything that was asked for had all its history to be had |
| `Polling.GrownTo` | maintner/gerrit.go:1195-1231 | When nothing is asked for any more, exactly the history of what was asked for has become known |
| `Polling.PatientSynced` | maintner/gerrit.go:1195-1231 | Watched for more turns than git has commits, indexing has succeeded if and only if all history of what was asked for is known, or in git and parses |
| `Polling.EndsIsAll` | maintner/gerrit.go:1161-1190 | The batches succeed only if each has its history in the directory of its own fetch, or known, or in that of what came before; watched for long enough they do so if and only if |
| `Indexing.UnparsedIsAskedAgain` | maintner/gerrit.go:757-769 | A commit that does not parse is still asked for after it was logged, and nothing else changes either |
| `Indexing.EndsExactly` | maintner/gerrit.go:1195-1231 | Runs of any length are possible if and only if a commit that does not parse is asked for or is reached from one that is through unknown commits of git; otherwise no run has more turns than git has unknown commits |
| `Indexing.SnaggedIsNotWhole` | maintner/gerrit.go:1195-1231 | When indexing may go on for ever, what is asked for cannot all be indexed, so it never succeeds |
| `Polling.CompletePollsSucceed` | maintner/gerrit.go:1038-1193 | A poll can succeed if each fetch leaves a complete directory with the commits it is for |
| `Polling.PollsConverge` | maintner/gerrit.go:1097-1134 | After a poll that logged all changed refs, the same listing would change nothing |
| `Polling.BatchIs` | maintner/gerrit.go:1161-1166 | Batch k is the k-th run of 250 hashes, the last one possibly shorter |
| `Maintner.Replica.SyncCommits` | maintner/gerrit.go:1195-1231 | For any git directory and any number of turns leader and log agree; success means nothing is asked for and all its history was known or in git and parsed, failure that it was not; more turns than git has commits still run only if they may for ever |
| `Maintner.Replica.SyncAndCheck` | maintner/gerrit.go:1195-1363 | Watched for long enough, indexing and the check succeed if and only if all history is to be had, and so on every complete repository |
| `Maintner.Replica.SyncBatch` | maintner/gerrit.go:1167-1190 | A batch succeeds only if all history of it and of what was needed is to be had, and fails only if not; it logs its refs when it succeeds, after that history, and nothing otherwise; then exactly that history has become known |
| `Maintner.Replica.NextBatch` | maintner/gerrit.go:1161-1190 | The next 250 refs and their hashes are taken off together, exactly when they succeed |
| `Maintner.Replica.SyncBatches` | maintner/gerrit.go:1161-1190 | Each batch has a fetch and a directory of its own; the refs logged are those of the batches before the first that is not fetched, cannot be indexed or still runs, whole and in order |
| `Maintner.Replica.ReadListing` | maintner/gerrit.go:1097-1135 | The refs that moved and, aligned with them, the commits to fetch |
| `Maintner.Replica.LogDeleted` | maintner/gerrit.go:1136-1156 | Of the tracked plain refs exactly those that the listing shows are left |
| `Maintner.Replica.SyncMissingCommits` | maintner/gerrit.go:1013-1036 | What earlier polls left out is indexed first, with success only if it is fetched and to be had and failure only if not; then exactly its history has become known |
| `Maintner.Replica.SyncOnce` | maintner/gerrit.go:1038-1193 | Whatever fails or still runs, leader and log agree; the poll succeeds only if what is missing and every batch can be fetched and indexed, and watched for long enough if and only if; it logs exactly the refs of the batches before the first that does not succeed; after success it asks for nothing, has no plain ref that the listing does not show, has every listed change ref and tracked ref at the listed hash, and the same listing would change nothing |
| `Maintner.Replica.Check` | maintner/gerrit.go:1345-1363 | On leader and follower, the check succeeds exactly when no commit is asked for |
| `NetSource.SyncIsSafe` | maintner/netsource.go:564-677 | Every run of syncSeg keeps the contents of every frozen file hashing to the hash in its name and touches no file of another segment |
| `NetSource.SyncedIsRight` | maintner/netsource.go:564-677 | Success hands back a file of exactly the listed size and checksum, even if the server ignores Range (section 14.2 of RFC 9110), unless the listing is troubled |
| `NetSource.WrongFile` | maintner/netsource.go:630-650 | For every troubled listing there is a run that hands back a wrong or missing file |
| `NetSource.RightFileExactlyWhenUntroubled` | maintner/netsource.go:564-677 | All runs hand back the right file if and only if the listing is not troubled |
| `NetSource.CachedIsEnough` | maintner/netsource.go:577-600 | A segment that is in the cache, frozen or at the start of the growing file, needs no request, and a finished one is moved to its frozen name |
| `NetSource.ResumedInOneGo` | maintner/netsource.go:601-677 | If the growing file has the beginning of the segment one answered request is enough, with or without the Range honoured; a failing request is the failure and changes nothing |
| `NetSource.AnswerEnds` | maintner/netsource.go:618-677 | An answer that makes up the segment is put in place if the disk lets it; any other is a terminal failure if there was no growing file |
| `NetSource.UnwrittenChangesNothing` | maintner/netsource.go:651-677 | Without a working disk nothing is put in place |
| `NetSource.AgainExactly` | maintner/netsource.go:601-650 | An attempt starts over exactly when the growing file, with what the server sends if a request is made, does not make up the segment |
| `NetSource.AtMostOneRetry` | maintner/netsource.go:643-650 | At most one retry if the growing file can be removed |
| `NetSource.NeverReturns` | maintner/netsource.go:601-650 | A growing file that is at least as long as the segment, does not match it and cannot be removed keeps syncSeg busy for ever; no request is made, so the context is never consulted |
| `NetSource.FailureEndsIt` | maintner/netsource.go:601-650 | Otherwise a failing request, as after the end of the context, makes it return: if and only if the file is not such a one |
| `NetSource.RetryBound` | maintner/netsource.go:643-650 | At most one retry in all circumstances if and only if there is no growing file to start over |
| `NetStream.SegmentPrefixIsPrefix` | maintner/netsource.go:477-504 | A log that has the old one at its start, segment by segment, has its bytes at its start |
| `NetStream.NoFalseSplit` | maintner/netsource.go:477-504 | A server that only appends never looks split |
| `NetStream.SumCommonPrefixSize` | maintner/netsource.go:477-504 | The common size is the whole old size exactly when the new log has the old one at its start, segment by segment |
| `NetStream.TrimLeadingSegBytes` | maintner/netsource.go:424-437 | What is left to deliver is the bytes after the first trim ones |
| `NetStream.ExactlyOnceExactly` | maintner/netsource.go:506-536 | What was sent is what counts as delivered, at every moment of a run, if and only if no call reads from the local cache and every list of new segments is read to its end |
| `NetStream.UnreadIsLost` | maintner/netsource.go:418-422 | Bytes of new segments that were not read are lost for good |
| `NetStream.OfflineIsRepeated` | maintner/netsource.go:324-327 | Bytes read from the local cache are delivered again |
| `NetStream.OfflineRun` | maintner/netsource.go:317-422 | A run of the source that starts without a network and sends a byte twice |
| `NetStream.InterruptedRun` | maintner/netsource.go:406-422 | A run of the source that stops reading, after which the byte is never sent: the next call finds nothing new |
| `NetStream.ServedIsMirrored` | maintner/netsource.go:362-402 | Whatever is in the cache, a server that sends whole segments and a disk that works mirror every listed segment within two attempts each |
| `NetStream.ListExactly` | maintner/netsource.go:320-358 | The listing is what the first reply says that ends the loop: a listing, a terminal failure, no network for a source that has delivered nothing, or the fifth retryable failure in a row |
| `NetStream.OneSegExactly` | maintner/netsource.go:362-402 | A segment comes out as the first try says that ends the loop: it was synced, syncSeg does not return, the failure is terminal, or it is the tenth retryable one in a row |
| `NetStream.RetriesHelp` | maintner/netsource.go:362-402 | Fewer than ten refusals before a try that is served end in a mirrored segment, whatever is in the cache |
| `NetStream.NetMutSource.SyncSeg` | maintner/netsource.go:564-677 | The retry loop over the cache directory does what the specification of syncSeg does |
| `NetStream.NetMutSource.GetServerSegments` | maintner/netsource.go:320-358 | The listing is retried after a failure, five times in a row; only a source that has delivered nothing falls back on its cache |
| `NetStream.NetMutSource.SyncAll` | maintner/netsource.go:362-402 | The frozen files stay right for any listing; success mirrors every segment of one that numbers its segments apart and is not troubled |
| `NetStream.NetMutSource.LocallyCachedSegments` | maintner/netsource.go:189-254 | The frozen files from number 0 on as far as they go, then a growing one |
| `NetStream.NetMutSource.Deliver` | maintner/netsource.go:404-421 | A split is reported exactly when the old log is not at the start of the new one; then nothing is delivered |
| `NetStream.NetMutSource.GetNewSegments` | maintner/netsource.go:317-422 | Fetching fails exactly when the listing does or a segment is refused; otherwise the fetched log mirrors a listing of the server, new segments deliver exactly its unseen bytes, nothing changes on unchanged or split, a log that does not extend what was delivered is a split, and one that only appends is not |
| `NetStream.NetMutSource.ReadSegs` | maintner/netsource.go:513-536 | The bytes handed on are those after each segment's skip, up to where reading stops |
| `NetStream.NetMutSource.FetchAndSend` | maintner/netsource.go:506-536 | A call sends what it reads of the new segments, or of the local cache exactly when nothing was delivered yet and there is no network |
| `NetStream.NetMutSource.Follow` | maintner/netsource.go:506-536 | Over any run of calls what was sent and the contents of the last log are those of its steps; they are the same if no call was answered from the local cache and each read to the end |
| `GitHubLaws.FastPathIsSound` | maintner/github.go:1118-1130 | As many distinct labels, all of them known, are all the labels there are |
| `GitHubLaws.AssigneesBecome` | maintner/github.go:895-971 | Adding the new assignees and deleting the deleted ones leaves exactly the current ones |
| `GitHubLaws.LoginsBecome` | maintner/github.go:869-971 | Afterwards every user that the issue mentions has the login it mentions |
| `GitHubLaws.LabelsBecome` | maintner/github.go:1117-1160 | Removing and adding as the diff says leaves exactly the current labels |
| `GitHubLaws.AmendedBecomes` | maintner/github.go:1243-1342 | Applying the diff to the issue it was computed from makes its fields those that GitHub reports, and a pull request one |
| `GitHubLaws.PollingBecomes` | maintner/github.go:983-1342 | A poll makes the issue what GitHub reports, if and only if it is not one recorded as not existing or as no pull request that otherwise agrees already, and no login of the author or closer on record has gone to another user |
| `GitHubLaws.LoginTakenOver` | maintner/github.go:869-891 | An issue whose author's login went to another user: the poll reports nothing and the old author stays |
| `GitHubLaws.UpToDateHasNoDiff` | maintner/github.go:983-1004 | An issue that is up to date has no diff, but for a creation time that never agreed |
| `GitHubLaws.ChangesExactly` | maintner/github.go:983-1004 | There is a diff if and only if memory does not already have the fields, logins and creation time that GitHub reports |
| `GitHubLaws.PollingTwiceIsIdle` | maintner/github.go:983-1004 | A second poll reports something exactly when the creation time is not the recorded one, or when the first gave the user on record a new login whose old one is now the author's or closer's |
| `GitHubLaws.PollSparesOthers` | maintner/github.go:1243-1280 | A poll changes no other issue and no creation time; a new issue is born when GitHub says, or at the epoch |
| `GitHubLaws.NamesBecome` | maintner/github.go:1292-1340 | Labels and a milestone that are new to the issue have the names that GitHub gives them; all other names are as before |
| `GitHubLaws.NotExistIs` | maintner/github.go:1258-1280 | A mutation that says that an issue does not exist marks it so and changes nothing else |
| `GitHubLaws.ZeroIsIgnored` | maintner/github.go:1253-1256 | A mutation of issue 0 is ignored |
| `GitHubLaws.AssigneeOrder` | maintner/github.go:948-971 | Assignees keep their order and new ones come last, in the order they are told |
| `GitHubLaws.WithoutInOrder` | maintner/github.go:948-971 | Deleting assignees keeps the order of the others |
| `GitHubLaws.ReportedInOrder` | maintner/github.go:914-943 | New assignees are reported in the order of the issue |
| `GitHubLaws.DeletedInOrder` | maintner/github.go:895-908 | Deleted assignees are reported in the order on record |
| `GitHubLaws.LearnIs` | maintner/github.go:808-827 | A user gets the login that is told, a known one keeps its login if none is, and nobody else changes |
| `GitHubLaws.ProcessKeepsWired` | maintner/github.go:1243-1342 | Whatever the mutation, every user that an issue refers to is known |
| `GitHub.LastLabelsAre` | maintner/github.go:1132-1139 | Of several labels with one ID the last counts |
| `GitHub.DiffLabels` | maintner/github.go:1117-1160 | The labels to remove are those no longer listed, those to add are the new ones; none on the fast path |
| `GitHub.GitHubRepo.GetUser` | maintner/github.go:808-827 | One object for each user ID, with its login brought up to date |
| `GitHub.GitHubRepo.SetAssigneesFromProto` | maintner/github.go:948-971 | The assignees are added and deleted as told, and are the corpus's own user objects |
| `GitHub.GitHubRepo.NewGithubUserProto` | maintner/github.go:869-891 | A user is reported if there was none or its login differs |
| `GitHub.GitHubRepo.FindNewAssignees` | maintner/github.go:914-943 | The users to report are the new ones and those with another login |
| `GitHub.GitHubRepo.FindDeletedAssignees` | maintner/github.go:895-908 | The users to delete are those no longer assigned |
| `GitHub.GitHubRepo.Diff` | maintner/github.go:983-1180 | The mutation is the diff between the issue in memory and the one reported, and is suppressed exactly when nothing changed |
| `GitHub.GitHubRepo.ProcessIssueMutation` | maintner/github.go:1243-1342 | The mutation changes the issue, the shared users, labels and milestones, and no other issue |
| `GitHub.GitHubRepo.Poll` | maintner/github.go:1188-1198 | Diff, then apply: something is reported exactly when memory does not agree yet, and the issue becomes what GitHub reports under the same condition as above |
| `Lines.LineValueOK` | maintner/gerrit.go:392-415 | The scanning loop returns the trimmed value after the first occurrence that counts, and the lines after it |
| `Lines.Trimmed` | maintner/gerrit.go:413-414 | Trimming takes white space away on both sides, all of it and nothing else |
| `Lines.LineReadsBack` | maintner/gerrit.go:392-415 | Of a text that begins with a line of the prefix the trimmed value is returned, and what comes after the line |
| `Lines.LastLineReadsBack` | maintner/gerrit.go:405-414 | So is the value of a last line without a newline |
| `Lines.LaterLineReadsBack` | maintner/gerrit.go:392-415 | So is that of a later line, after a newline or a carriage return, if the prefix does not occur before it |
| `Lines.FoundCounts` | maintner/gerrit.go:400-404 | What is found begins a line, or comes right after another occurrence |
| `Lines.FoundIsFirst` | maintner/gerrit.go:395-404 | It is the first such occurrence, and there is none if nothing is found |
| `Lines.FoundIsALine` | maintner/gerrit.go:395-404 | It is the first line that begins with the prefix exactly when the prefix is not doubled before that line |
| `Lines.NothingIsFound` | maintner/gerrit.go:395-404 | Nothing is found if and only if no line begins with the prefix and it is nowhere doubled |
| `Lines.NotAlwaysALine` | maintner/gerrit.go:400-404 | A text with a doubled prefix in the middle of a line, where a value is found although no line begins with the prefix |
| `LabelVotes.SameDiffStat` | maintner/git.go:127-141 | True exactly when both have the same files with the same numbers and none is unknown |
| `LabelVotes.ApplyFooter` | maintner/gerrit.go:1540-1566 | The loop over the lines applies each line's vote or removal, in order |
| `LabelVotes.LabelVotesOf` | maintner/gerrit.go:1487-1570 | The votes of the history, or an error exactly when some meta of a new patch set names a commit the project does not have |
| `LabelVotes.LastEditWins` | maintner/gerrit.go:1540-1566 | Within a meta the last line about a person's vote on a label decides |
| `LabelVotes.LastWriterWins` | maintner/gerrit.go:1487-1570 | The vote is v exactly when the last line about it votes v and, for the trybot labels, no later meta is a new patch set with another diff stat |
| `LabelVotes.ParseWritten` | maintner/gerrit.go:1582-1607 | Parsing label=n Name <address>, for every n from -128 to 127 and with or without a plus sign, gives back all three |
| `LabelVotes.ParseRemoval` | maintner/gerrit.go:1572-1607 | Parsing -label Name <address> takes away that person's vote |
| `LabelVotes.NumeralReadsBack` | maintner/gerrit.go:1602-1604 | Every number is read back from its decimal text, and refused exactly if it is no int8 |
| `LabelVotes.UnreadableVote` | maintner/gerrit.go:1600-1605 | A number that cannot be read votes 0 |
| `LabelVotes.VoteIsCredited` | maintner/gerrit.go:1540-1566 | A written vote is credited to the person whose address it gives, and to the author if it gives none |
| `LabelVotes.BareVote` | maintner/gerrit.go:1540-1566 | A vote that names nobody is the author's |
| `LabelVotes.BareLabel` | maintner/gerrit.go:1540-1566 | A label without a number votes 0, and with a dash takes the author's vote away |
| `LabelVotes.EditsOfLine` | maintner/gerrit.go:1540-1547 | The edits of a footer are those of its Label lines, in order |
| `LabelVotes.PatchSetIs` | maintner/gerrit.go:1511-1516 | A meta tells of a new patch set exactly if it has that tag, and of the commit of its Commit line |
| `LabelVotes.ChangesIs` | maintner/gerrit.go:1516-1537 | A patch set counts as changed exactly when the last one named before it has another diff stat |
| `Pargzip.SplitChunks` | pargzip/pargzip.go:188-200 | The chunks of a hand-off are all of it, in order, each full but the last |
| `Pargzip.RunKeepsInv` | pargzip/pargzip.go:61-181 | Every interleaving keeps the bytes, tokens, queue order, output, error and call invariants |
| `Pargzip.OutputIsOrdered` | pargzip/pargzip.go:104-149 | The output is the compressed chunks of an initial run of the input, in order, with a piece of the next one only after an error |
| `Pargzip.UnzipMembers` | pargzip/pargzip.go:69-78 | Decompressing concatenated members gives the concatenated chunks |
| `Pargzip.NilMeansAllIsWritten` | pargzip/pargzip.go:158-181 | The first Close returns nil exactly when there was no error, and then the output decompresses to everything written |
| `Pargzip.BoundedParallelism` | pargzip/pargzip.go:104-131 | At most Parallel compressions run at once and at most Parallel + 1 chunks are queued |
| `Pargzip.NeverStuck` | pargzip/pargzip.go:117-181 | While Write or Close has not returned, some step is possible that nobody has to ask for, even after an error |
| `Pargzip.StepsShrink` | pargzip/pargzip.go:61-181 | Every such step brings the machine closer to rest |
| `Pargzip.CallsReturn` | pargzip/pargzip.go:151-181 | Write and Close return under every schedule, within a bound known in advance |
| `Pargzip.NoSendOnClosedQueue` | pargzip/pargzip.go:125-130 | The caller never sends on the closed queue |
| `Pargzip.CloseAtOnce` | pargzip/pargzip.go:158-181 | A second Close does nothing, one before any Write returns nil, and one after an error returns it without flushing |
| `LiveLog.ShownGrows` | livelog/livelog.go:46-66 | What the log shows is never taken back and never exceeds the maximum, which it reaches exactly when it is truncated |
| `LiveLog.AppendedShows` | livelog/livelog.go:46-66 | However the writes are cut, the buffer depends on their concatenation only |
| `LiveLog.Buffer.Write` | livelog/livelog.go:46-66 | The log shows all writes so far, or the first ones and the truncation message |
| `LiveLog.LogReader.Read` | livelog/livelog.go:119-138 | Each read returns the next bytes; EOF only when closed, or when the log is closed and all of it was returned |
| `LiveLog.LogReader.ReadAll` | livelog/livelog.go:119-138 | Reading a closed log to EOF returns all of it |
| `LiveLog.RunKeepsInv` | livelog/livelog.go:46-151 | Every interleaving keeps the buffer, reader and wake-up invariants, and the log is only appended to |
| `LiveLog.LogIsWhatWasWritten` | livelog/livelog.go:46-138 | After any interleaving the log shows what was written and every reader has returned the beginning of it |
| `LiveLog.ReadersAgree` | livelog/livelog.go:119-138 | Of two readers one has returned the beginning of what the other has |
| `LiveLog.EofMeansTheEnd` | livelog/livelog.go:130-133 | EOF exactly when the reader is closed, or the log is closed and all of it was returned |
| `LiveLog.NoLostWakeUp` | livelog/livelog.go:78-84 | While there is something to return no call sleeps, and each can return |
| `LiveLog.NeverRefused` | livelog/livelog.go:46-151 | No call is ever refused: the slice in Write is always in range |
| `EmptySections.RemoveEmptySections` | relnote/relnote.go:218-247 | Kept are exactly the blocks to keep, in order, at the start of the shared array, and each block moves once for each of its places; one that is there once and kept moves up by the heights of the headings removed before it |
| `EmptySections.Rem` | relnote/relnote.go:223-235 | The pops leave the stack for a heading of that level, and count the lines of what they remove |
| `EmptySections.Append` | relnote/relnote.go:241-243 | Appending overwrites only elements that have been read |
| `EmptySections.Popped` | relnote/relnote.go:222-235 | Popping the headings of the same or a deeper level removes exactly those whose sections are known to be empty |
| `EmptySections.AliveIsKept` | relnote/relnote.go:237-246 | Below a block that is kept in the end, the blocks on the stack are exactly those kept in the end |
| `EmptySections.KeptMoves` | relnote/relnote.go:241-243 | The lines counted so far when a block comes that is kept are those of all headings removed before it |
| `EmptySections.SpacingStays` | relnote/relnote.go:219-243 | In a document with one blank line between blocks the kept ones have one between them too, from the first line on |
| `EmptySections.NoEmptySectionIsLeft` | relnote/relnote.go:215-217 | In the result what follows a heading is a deeper heading or no heading |
| `EmptySections.KeepsExactly` | relnote/relnote.go:215-247 | The code keeps a heading if and only if it has content by the comment and no heading of a smaller level comes before the first block that is no heading |
| `EmptySections.CommentDiffers` | relnote/relnote.go:215-247 | Of levels 2, 1 and 0 the code removes the first heading, which has content by the comment |
| `HumanDuration.FmtFrac` | cmd/coordinator/queues.go:102-120 | Drops the decimals, writing only below the end it is given |
| `HumanDuration.FmtInt` | cmd/coordinator/queues.go:123-136 | Writes the decimal digits right before what is there |
| `HumanDuration.Magnitude` | cmd/coordinator/queues.go:59-63 | The wrapped negation is the magnitude for every int64, the least one included |
| `HumanDuration.Format` | cmd/coordinator/queues.go:55-99 | The text of the duration, with every write inside the 32 bytes and nothing left of the fraction |
| `HumanDuration.RenderReadsBack` | cmd/coordinator/queues.go:51-99 | Reading the text back gives the whole seconds, and a minus sign exactly for negative durations |
| `HumanDuration.RenderFields` | cmd/coordinator/queues.go:73-92 | The text has days, hours below 24, minutes and seconds below 60, without leading fields that are zero |

## Left out

- GitHub labels and milestones are shared by ID and name tables, not as heap objects; renames through a shared pointer are updates of the table.
- The `Body` field of old issue mutations, which a diff never sets, is not modelled.
- GitHub comments, events, reviews and their polling are not modelled, nor is the reference from CLs to issues (`updateGithubIssueRefs`).
- Git message headers come as lines that are a parent, a committer or something else; the texts of Gerrit meta commits come as the status, branch, message and private fields that the code reads from them.
- One Gerrit project stands for the corpus; commits of other projects come in as git mutations that only fill the shared graph.
- The `gitCommitTodo` poll path, `numLabelChanges`, hashtags and reviewers are not modelled.
- The record framing and protobuf encoding of mutations are not modelled; file names of the cache are structured values, and of several frozen files with one number any may be used offline.
- NetStream.NetMutSource.GetNewSegments: what is delivered is stated for listings that number their segments apart and are not troubled, because otherwise `syncSeg` may hand back a wrong file.
- NetStream.NetMutSource.Follow: reading is counted in bytes, so a record that is cut by an interrupted read is not told apart from the bytes before it.
- Maintner.Replica.AddMutation: processing and logging are one step; logs that other projects' commits enter later are covered by the lemmas of `Interleaving.dfy`.
- GitHubLaws.PollingBecomes: the IDs are non-zero, label IDs are distinct, the title is not empty and users have one non-empty login each, as GitHub's are.
- LabelVotes.LabelVotesOf: takes the metas up to the one asked for, so the search for the receiver in the CL's metas and its panics are not modelled; white space is ASCII white space.
- Pargzip.RunKeepsInv: there is one caller, which does not write after Close; bufio may hand on any prefix of what it holds, and Flush all of it.
- LiveLog.RunKeepsInv: Bytes and String, which copy the buffer, are not steps.
- EmptySections.RemoveEmptySections: headings have levels of at least 1, as the Markdown parser makes them.
- relnote's merging, parsing and linking, the coordinator's scheduling, the dashboards and the buildlet clients are not modelled; they are plumbing or configuration.
