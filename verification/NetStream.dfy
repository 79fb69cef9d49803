/** Exactly-once delivery of the log: getNewSegments of maintner/netsource.go over every run of calls. */
module NetStream {
  import opened Basics
  import opened NetSource

  // ---- Segments and their bytes ----

  /** The data that a segment's checksum is the checksum of. */
  function Data(s: FileSeg): Bytes {
    if s.sha224.Sum? then s.sha224.of else []
  }

  /** The checksum and the size of the segment are those of one piece of data. */
  predicate SegOk(s: FileSeg) {
    s.sha224 == Sum224(Data(s)) && |Data(s)| == s.size && s.skip == 0
  }

  predicate SegsOk(segs: seq<FileSeg>) {
    forall i :: 0 <= i < |segs| ==> SegOk(segs[i])
  }

  function SumSize(segs: seq<FileSeg>): nat {
    if segs == [] then 0 else segs[0].size + SumSize(segs[1..])
  }

  /** The bytes the segments stand for. */
  function Contents(segs: seq<FileSeg>): Bytes {
    if segs == [] then [] else Data(segs[0]) + Contents(segs[1..])
  }

  lemma {:induction false} ContentsSize(segs: seq<FileSeg>)
    requires SegsOk(segs)
    ensures |Contents(segs)| == SumSize(segs)
  {
    if segs != [] {
      ContentsSize(segs[1..]);
    }
  }

  /** The segment's file holds its data. */
  predicate OnDisk(cache: Cache, s: FileSeg) {
    s.file in cache && s.sha224 == Sum224(cache[s.file]) && |cache[s.file]| == s.size
  }

  predicate AllOnDisk(cache: Cache, segs: seq<FileSeg>) {
    forall i :: 0 <= i < |segs| ==> OnDisk(cache, segs[i])
  }

  // ---- Comparing two logs by checksum ----

  /**
   The old log is, segment by segment, at the start of the new one: equal segments, then possibly
   one that grew, then nothing but empty ones.
   */
  ghost predicate SegmentPrefix(was: seq<FileSeg>, now: seq<FileSeg>) {
    || Contents(was) == []
    || (&& was != [] && now != []
        && if was[0].sha224 == now[0].sha224 then SegmentPrefix(was[1..], now[1..])
           else Data(was[0]) < Data(now[0]) && Contents(was[1..]) == [])
  }

  /** A log that has the old one at its start, segment by segment, has its bytes at its start. */
  lemma {:induction false} SegmentPrefixIsPrefix(was: seq<FileSeg>, now: seq<FileSeg>)
    requires SegsOk(was) && SegsOk(now) && SegmentPrefix(was, now)
    ensures Contents(was) <= Contents(now)
  {
    if Contents(was) != [] && was[0].sha224 == now[0].sha224 {
      SegmentPrefixIsPrefix(was[1..], now[1..]);
    }
  }

  /** What a server that only appends does to its listing. */
  ghost predicate Appended(was: seq<FileSeg>, now: seq<FileSeg>) {
    || was == []
    || (&& |now| >= |was|
        && (forall i :: 0 <= i < |was| - 1 ==> now[i].sha224 == was[i].sha224)
        && Data(was[|was| - 1]) <= Data(now[|was| - 1]))
  }

  /** Appending never looks like a split. */
  lemma {:induction false} NoFalseSplit(was: seq<FileSeg>, now: seq<FileSeg>)
    requires SegsOk(was) && SegsOk(now) && Appended(was, now)
    ensures SegmentPrefix(was, now)
  {
    if was != [] {
      if |was| > 1 {
        assert now[0].sha224 == was[0].sha224;
        forall i | 0 <= i < |was[1..]| - 1 ensures now[1..][i].sha224 == was[1..][i].sha224 {
          assert now[i + 1].sha224 == was[i + 1].sha224;
        }
        NoFalseSplit(was[1..], now[1..]);
      } else {
        assert Contents(was[1..]) == [];
        assert Contents(was) == Data(was[0]);
      }
    }
  }

  /** filePrefixSum224: the empty string stands for a file that is missing or too short. */
  function FilePrefixSum224(cache: Cache, file: FileName, n: nat): Digest {
    if file in cache && n <= |cache[file]| then Sum224(cache[file][..n]) else NotASum("")
  }

  /** The new segments are on disk, and both logs' checksums fit their sizes. */
  ghost predicate Fit(cache: Cache, now: seq<FileSeg>, was: seq<FileSeg>) {
    SegsOk(was) && SegsOk(now) && AllOnDisk(cache, now)
  }

  /**
   The common size is all of the old log exactly when the old log is a segment prefix of the new one.
   The files of the old log may be gone or overwritten; only the new log's files have to be there.
   */
  method SumCommonPrefixSize(cache: Cache, now: seq<FileSeg>, was: seq<FileSeg>) returns (sum: nat)
    ensures Fit(cache, now, was) ==> (sum == SumSize(was) <==> SegmentPrefix(was, now))
  {
    sum := 0;
    var a, b := now, was;
    while |a| > 0 && |b| > 0
      invariant Fit(cache, now, was) ==> Fit(cache, a, b) && SumSize(was) == sum + SumSize(b)
      invariant Fit(cache, now, was) ==> (SegmentPrefix(was, now) <==> SegmentPrefix(b, a))
      decreases |a|
    {
      var sa, sb := a[0], b[0];
      if Fit(cache, a, b) {
        ContentsSize(b);
        ContentsSize(b[1..]);
      }
      if sa.sha224 == sb.sha224 {
        sum := sum + sa.size;
        a, b := a[1..], b[1..];
        continue;
      }
      if sa.size == sb.size {
        return;
      }
      if sb.size < sa.size {
        sa, sb := sb, sa;
      }
      var bPrefixSum := FilePrefixSum224(cache, sb.file, sa.size);
      if bPrefixSum == sa.sha224 {
        sum := sum + sa.size;
      }
      return;
    }
    if Fit(cache, a, b) {
      ContentsSize(b);
    }
  }

  // ---- The part of a log not delivered yet ----

  /** What a reader of the segment's file gets: from its skip to its size, as far as the file goes. */
  function ReadOf(cache: Cache, s: FileSeg): Bytes {
    if s.file !in cache then []
    else
      var data := cache[s.file];
      var end := if s.size < |data| then s.size else |data|;
      if s.skip <= end then data[s.skip..end] else []
  }

  /** The bytes a reader of the segments' files gets. */
  function Delivery(cache: Cache, segs: seq<FileSeg>): Bytes {
    if segs == [] then [] else ReadOf(cache, segs[0]) + Delivery(cache, segs[1..])
  }

  lemma {:induction false} DeliveryIsContents(cache: Cache, segs: seq<FileSeg>)
    requires SegsOk(segs) && AllOnDisk(cache, segs)
    ensures Delivery(cache, segs) == Contents(segs)
  {
    if segs != [] {
      DeliveryIsContents(cache, segs[1..]);
      assert cache[segs[0].file][0..segs[0].size] == Data(segs[0]);
    }
  }

  function Dropped(data: Bytes, n: nat): Bytes {
    if n <= |data| then data[n..] else []
  }

  lemma DroppedStep(a: Bytes, b: Bytes, n: nat)
    ensures Dropped(a + b, n) == if n >= |a| then Dropped(b, n - |a|) else a[n..] + b
  {
  }

  /** Drops whole segments, then marks how much of the next one to skip. What is left to deliver is the rest of the bytes. */
  method TrimLeadingSegBytes(cache: Cache, segs: seq<FileSeg>, trim: nat) returns (out: seq<FileSeg>)
    ensures SegsOk(segs) && AllOnDisk(cache, segs) ==> Delivery(cache, out) == Dropped(Contents(segs), trim)
  {
    ghost var fit := SegsOk(segs) && AllOnDisk(cache, segs);
    var rest: seq<FileSeg>, left: nat := segs, trim;
    while |rest| > 0 && left >= rest[0].size
      invariant fit ==> SegsOk(rest) && AllOnDisk(cache, rest)
      invariant fit ==> Dropped(Contents(rest), left) == Dropped(Contents(segs), trim)
      decreases |rest|
    {
      DroppedStep(Data(rest[0]), Contents(rest[1..]), left);
      left := left - rest[0].size;
      rest := rest[1..];
    }
    if |rest| == 0 {
      return [];
    }
    out := rest[0 := rest[0].(skip := left)];
    if fit {
      TrimmedIs(cache, rest, left);
    }
  }

  lemma TrimmedIs(cache: Cache, rest: seq<FileSeg>, left: nat)
    requires SegsOk(rest) && AllOnDisk(cache, rest) && rest != [] && left < rest[0].size
    ensures Delivery(cache, rest[0 := rest[0].(skip := left)]) == Dropped(Contents(rest), left)
  {
    var out := rest[0 := rest[0].(skip := left)];
    assert out[1..] == rest[1..];
    DeliveryIsContents(cache, rest[1..]);
    DroppedStep(Data(rest[0]), Contents(rest[1..]), left);
    assert cache[rest[0].file][left..rest[0].size] == Data(rest[0])[left..];
  }

  // ---- What runs of calls deliver ----

  /** What one call of fetchAndSendMutations hands out to be read, and what of it is read before it stops. */
  datatype Step = Idle | Online(handed: Bytes, read: Bytes) | Offline(handed: Bytes, read: Bytes)

  /** Everything that was read and sent on. */
  function Sent(steps: seq<Step>): Bytes {
    if steps == [] then []
    else
      var step := steps[|steps| - 1];
      Sent(steps[..|steps| - 1]) + if step.Idle? then [] else step.read
  }

  /** Everything that counts as delivered: what the source will not hand out again. */
  function Held(steps: seq<Step>): Bytes {
    if steps == [] then []
    else
      var step := steps[|steps| - 1];
      Held(steps[..|steps| - 1]) + if step.Online? then step.handed else []
  }

  /** Reading stops at the end, or before. */
  predicate Reads(step: Step) {
    !step.Idle? ==> step.read <= step.handed
  }

  /** Nothing is read from the local cache, and what comes from the server is read to its end. */
  predicate ReadsExactly(step: Step) {
    (step.Online? ==> step.read == step.handed) && (step.Offline? ==> step.read == [])
  }

  lemma StepsOneMore(steps: seq<Step>)
    requires steps != []
    ensures var init, step := steps[..|steps| - 1], steps[|steps| - 1];
            && |Sent(steps)| == |Sent(init)| + (if step.Idle? then 0 else |step.read|)
            && |Held(steps)| == |Held(init)| + (if step.Online? then |step.handed| else 0)
  {
  }

  /** Every byte was delivered once, and in order, at every moment of the run. */
  ghost predicate ExactlyOnce(steps: seq<Step>) {
    forall k :: 0 <= k <= |steps| ==> Sent(steps[..k]) == Held(steps[..k])
  }

  /** Delivery is exactly once if and only if every step reads exactly what it should. */
  lemma {:induction false} ExactlyOnceExactly(steps: seq<Step>)
    requires forall i :: 0 <= i < |steps| ==> Reads(steps[i])
    ensures ExactlyOnce(steps) <==> forall i :: 0 <= i < |steps| ==> ReadsExactly(steps[i])
  {
    if steps == [] {
      assert ExactlyOnce(steps);
    } else {
      var n := |steps| - 1;
      var init, step := steps[..n], steps[n];
      ExactlyOnceExactly(init);
      StepsOneMore(steps);
      assert steps[..|steps|] == steps;
      assert forall k :: 0 <= k <= n ==> init[..k] == steps[..k];
      assert init[..n] == init;
      assert ExactlyOnce(steps) <==> ExactlyOnce(init) && Sent(steps) == Held(steps);
      assert forall i :: 0 <= i < n ==> init[i] == steps[i];
      if Sent(init) == Held(init) {
        assert ReadsExactly(step) <==> |if step.Idle? then [] else step.read| == |if step.Online? then step.handed else []|;
      }
    }
  }

  /** Without a step offline, bytes that were handed out and not read are lost for good. */
  lemma {:induction false} UnreadIsLost(steps: seq<Step>)
    requires forall i :: 0 <= i < |steps| ==> Reads(steps[i]) && !steps[i].Offline?
    ensures |Sent(steps)| <= |Held(steps)|
    ensures |Sent(steps)| == |Held(steps)| <==> forall i :: 0 <= i < |steps| ==> ReadsExactly(steps[i])
  {
    if steps != [] {
      var n := |steps| - 1;
      assert forall i :: 0 <= i < n ==> steps[..n][i] == steps[i];
      UnreadIsLost(steps[..n]);
      StepsOneMore(steps);
      assert ReadsExactly(steps[n]) <==> steps[n].Idle? || |steps[n].read| == |steps[n].handed|;
    }
  }

  /** With everything read to its end, bytes that were read offline are delivered again. */
  lemma {:induction false} OfflineIsRepeated(steps: seq<Step>)
    requires forall i :: 0 <= i < |steps| && !steps[i].Idle? ==> steps[i].read == steps[i].handed
    ensures |Sent(steps)| >= |Held(steps)|
    ensures |Sent(steps)| == |Held(steps)| <==> forall i :: 0 <= i < |steps| ==> ReadsExactly(steps[i])
  {
    if steps != [] {
      var n := |steps| - 1;
      assert forall i :: 0 <= i < n ==> steps[..n][i] == steps[i];
      OfflineIsRepeated(steps[..n]);
      StepsOneMore(steps);
      assert ReadsExactly(steps[n]) <==> !steps[n].Offline? || |steps[n].read| == 0;
    }
  }

  // ---- The source ----

  datatype ListReply = Listing(segs: seq<LogSegment>) | ListFailed(failure: Failure)
  datatype ListResult = Listed(segs: seq<LogSegment>) | UseLocalCache | ListError

  /** Running: the call has not returned yet. */
  datatype Result = New(segs: seq<FileSeg>) | ErrSplit | ErrUnchanged | ErrFetch | FromLocalCache(segs: seq<FileSeg>) | Running

  datatype Progress = Mirrored | Refused | StillRunning

  const LIST_TRIES := 5
  const SEG_TRIES := 10

  /** The metadata loop: what the server's replies come to. When they run out the context has ended. */
  function ListSpec(replies: seq<ListReply>, sumLast: nat, try: nat): ListResult {
    if replies == [] then ListError
    else
      match replies[0]
      case Listing(segs) => Listed(segs)
      case ListFailed(NoInternet) => if sumLast == 0 then UseLocalCache else ListSpec(replies[1..], sumLast, 1)
      case ListFailed(Retryable) => if try == LIST_TRIES then ListError else ListSpec(replies[1..], sumLast, try + 1)
      case ListFailed(Terminal) => ListError
  }

  lemma {:induction false} ListedIsReply(replies: seq<ListReply>, sumLast: nat, try: nat)
    ensures var r := ListSpec(replies, sumLast, try);
            && (r.Listed? ==> Listing(r.segs) in replies)
            && (r.UseLocalCache? ==> sumLast == 0 && ListFailed(NoInternet) in replies)
  {
    if replies != [] {
      ListedIsReply(replies[1..], sumLast, 1);
      ListedIsReply(replies[1..], sumLast, try + 1);
    }
  }

  /** The metadata loop ends at reply k, unless it has ended before: it gives up at the fifth retryable failure in a row. */
  predicate ListEnds(replies: seq<ListReply>, sumLast: nat, k: nat)
    requires k < |replies|
  {
    || replies[k].Listing?
    || replies[k] == ListFailed(Terminal)
    || (replies[k] == ListFailed(NoInternet) && sumLast == 0)
    || (k >= 4 && forall i :: k - 4 <= i <= k ==> replies[i] == ListFailed(Retryable))
  }

  ghost predicate ListEndsFirst(replies: seq<ListReply>, sumLast: nat, k: nat) {
    k < |replies| && ListEnds(replies, sumLast, k) && forall i: nat :: i < k ==> !ListEnds(replies, sumLast, i)
  }

  /** How the listing comes out when the loop ends at this reply. */
  function EndOf(reply: ListReply): ListResult {
    match reply
    case Listing(segs) => Listed(segs)
    case ListFailed(NoInternet) => UseLocalCache
    case ListFailed(_) => ListError
  }

  /** The replies up to k are behind, and the last try - 1 of them are retryable failures. */
  ghost predicate Retrying(replies: seq<ListReply>, k: nat, try: nat) {
    && 1 <= try <= 5 && try - 1 <= k <= |replies|
    && (forall i :: k - (try - 1) <= i < k ==> replies[i] == ListFailed(Retryable))
    && (k > try - 1 ==> replies[k - try] != ListFailed(Retryable))
  }

  lemma ListEndsHere(replies: seq<ListReply>, sumLast: nat, k: nat, try: nat)
    requires Retrying(replies, k, try) && k < |replies|
    ensures ListEnds(replies, sumLast, k) <==>
              || replies[k].Listing? || replies[k] == ListFailed(Terminal) || (replies[k] == ListFailed(NoInternet) && sumLast == 0)
              || (replies[k] == ListFailed(Retryable) && try == 5)
    ensures !ListEnds(replies, sumLast, k) ==> Retrying(replies, k + 1, if replies[k] == ListFailed(Retryable) then try + 1 else 1)
  {
    assert k >= try && try < 5 ==> k - 4 <= k - try;
  }

  lemma {:induction false} ListGoesOn(replies: seq<ListReply>, sumLast: nat, k: nat, try: nat)
    requires Retrying(replies, k, try) && forall i: nat :: i < k ==> !ListEnds(replies, sumLast, i)
    ensures forall e: nat :: ListEndsFirst(replies, sumLast, e) ==> ListSpec(replies[k..], sumLast, try) == EndOf(replies[e])
    ensures (forall e: nat :: e < |replies| ==> !ListEnds(replies, sumLast, e)) ==> ListSpec(replies[k..], sumLast, try).ListError?
    decreases |replies| - k
  {
    if k < |replies| {
      assert replies[k..][1..] == replies[k + 1..];
      ListEndsHere(replies, sumLast, k, try);
      if !ListEnds(replies, sumLast, k) {
        ListGoesOn(replies, sumLast, k + 1, if replies[k] == ListFailed(Retryable) then try + 1 else 1);
      } else {
        assert forall e: nat :: ListEndsFirst(replies, sumLast, e) ==> e == k;
      }
    }
  }

  /**
   The listing is what the first reply says at which the loop ends: a listing, a terminal failure, no network for a source
   that has delivered nothing, or the fifth retryable failure in a row. If there is none the context ends it.
   */
  lemma ListExactly(replies: seq<ListReply>, sumLast: nat)
    ensures forall e: nat :: ListEndsFirst(replies, sumLast, e) ==> ListSpec(replies, sumLast, 1) == EndOf(replies[e])
    ensures (forall e: nat :: e < |replies| ==> !ListEnds(replies, sumLast, e)) ==> ListSpec(replies, sumLast, 1).ListError?
  {
    assert replies[0..] == replies;
    ListGoesOn(replies, sumLast, 0, 1);
  }

  const NO_SEG := FileSeg(0, Growing(0), NotASum(""), 0, 0)

  /** What mirroring one segment comes to. When the tries run out the context has ended. */
  datatype OneSync = OneSync(progress: Progress, fs: FileSeg, rest: seq<seq<Attempt>>, cache: Cache)

  function SyncOneSpec(cache: Cache, seg: LogSegment, tries: seq<seq<Attempt>>, try: nat): OneSync
    decreases |tries|
  {
    if tries == [] then OneSync(Refused, NO_SEG, [], cache)
    else
      var r, rest := SyncSpec(cache, seg, tries[0]), tries[1..];
      match r.0
      case Synced(file, _) => OneSync(Mirrored, file, rest, r.1)
      case NotSynced(NoInternet) => SyncOneSpec(r.1, seg, rest, 1)
      case NotSynced(Retryable) =>
        if try == SEG_TRIES then OneSync(Refused, NO_SEG, rest, r.1) else SyncOneSpec(r.1, seg, rest, try + 1)
      case NotSynced(Terminal) => OneSync(Refused, NO_SEG, rest, r.1)
      case Unfinished => OneSync(StillRunning, NO_SEG, rest, r.1)
  }

  /** What syncSeg comes to at each try, one after the other. */
  function Results(cache: Cache, seg: LogSegment, tries: seq<seq<Attempt>>): (r: seq<SyncResult>)
    ensures |r| == |tries|
    decreases |tries|
  {
    if tries == [] then []
    else [SyncSpec(cache, seg, tries[0]).0] + Results(SyncSpec(cache, seg, tries[0]).1, seg, tries[1..])
  }

  /** The loop ends at try k, unless it has ended before: it gives up at the tenth retryable failure in a row. */
  predicate SegEnds(rs: seq<SyncResult>, k: nat)
    requires k < |rs|
  {
    || rs[k].Synced? || rs[k].Unfinished? || rs[k] == NotSynced(Terminal)
    || (k >= 9 && forall i :: k - 9 <= i <= k ==> rs[i] == NotSynced(Retryable))
  }

  ghost predicate SegEndsFirst(rs: seq<SyncResult>, k: nat) {
    k < |rs| && SegEnds(rs, k) && forall i: nat :: i < k ==> !SegEnds(rs, i)
  }

  /** How the segment comes out when the loop ends with this result. */
  predicate SegEndsAs(r: SyncResult, one: OneSync) {
    match r
    case Synced(file, _) => one.progress.Mirrored? && one.fs == file
    case Unfinished => one.progress.StillRunning?
    case NotSynced(_) => one.progress.Refused?
  }

  ghost predicate SegRetrying(rs: seq<SyncResult>, k: nat, try: nat) {
    && 1 <= try <= 10 && try - 1 <= k <= |rs|
    && (forall i :: k - (try - 1) <= i < k ==> rs[i] == NotSynced(Retryable))
    && (k > try - 1 ==> rs[k - try] != NotSynced(Retryable))
  }

  lemma SegEndsHere(rs: seq<SyncResult>, k: nat, try: nat)
    requires SegRetrying(rs, k, try) && k < |rs|
    ensures SegEnds(rs, k) <==>
              rs[k].Synced? || rs[k].Unfinished? || rs[k] == NotSynced(Terminal) || (rs[k] == NotSynced(Retryable) && try == 10)
    ensures !SegEnds(rs, k) ==> SegRetrying(rs, k + 1, if rs[k] == NotSynced(Retryable) then try + 1 else 1)
  {
    assert k >= try && try < 10 ==> k - 9 <= k - try;
  }

  /** What the results come to from try k on. */
  ghost predicate SegComesOut(rs: seq<SyncResult>, one: OneSync) {
    && (forall e: nat :: SegEndsFirst(rs, e) ==> SegEndsAs(rs[e], one))
    && ((forall e: nat :: e < |rs| ==> !SegEnds(rs, e)) ==> one.progress.Refused?)
  }

  lemma SegEndsNow(rs: seq<SyncResult>, k: nat, one: OneSync)
    requires SegEndsFirst(rs, k) && SegEndsAs(rs[k], one)
    ensures SegComesOut(rs, one)
  {
    assert forall e: nat :: SegEndsFirst(rs, e) ==> e == k;
  }

  lemma SegNeverEnds(rs: seq<SyncResult>, one: OneSync)
    requires one.progress.Refused? && forall e: nat :: e < |rs| ==> !SegEnds(rs, e)
    ensures SegComesOut(rs, one)
  {
  }

  lemma {:induction false} SegGoesOn(rs: seq<SyncResult>, k: nat, cache: Cache, seg: LogSegment, tries: seq<seq<Attempt>>, try: nat)
    requires SegRetrying(rs, k, try) && rs[k..] == Results(cache, seg, tries) && forall i: nat :: i < k ==> !SegEnds(rs, i)
    ensures SegComesOut(rs, SyncOneSpec(cache, seg, tries, try))
    decreases |tries|
  {
    if tries != [] {
      var r := SyncSpec(cache, seg, tries[0]);
      assert rs[k] == rs[k..][0] == r.0;
      SegEndsHere(rs, k, try);
      if SegEnds(rs, k) {
        SegEndsNow(rs, k, SyncOneSpec(cache, seg, tries, try));
      } else {
        var next := if r.0 == NotSynced(Retryable) then try + 1 else 1;
        assert rs[k + 1..] == rs[k..][1..] == Results(r.1, seg, tries[1..]);
        SegGoesOn(rs, k + 1, r.1, seg, tries[1..], next);
        assert SyncOneSpec(cache, seg, tries, try) == SyncOneSpec(r.1, seg, tries[1..], next);
      }
    } else {
      SegNeverEnds(rs, SyncOneSpec(cache, seg, tries, try));
    }
  }

  /**
   A segment comes out as the first try says at which the loop ends: it was synced, syncSeg does not return, the failure is
   terminal, or it is the tenth retryable one in a row. If there is none the context ends it.
   */
  lemma OneSegExactly(cache: Cache, seg: LogSegment, tries: seq<seq<Attempt>>)
    ensures SegComesOut(Results(cache, seg, tries), SyncOneSpec(cache, seg, tries, 1))
  {
    var rs := Results(cache, seg, tries);
    assert rs[0..] == rs;
    SegGoesOn(rs, 0, cache, seg, tries, 1);
  }

  /** What mirroring all listed segments comes to. */
  function SyncAllSpec(cache: Cache, segs: seq<LogSegment>, tries: seq<seq<Attempt>>): (Progress, seq<FileSeg>, Cache)
    decreases |segs|
  {
    if segs == [] then (Mirrored, [], cache)
    else
      var one := SyncOneSpec(cache, segs[0], tries, 1);
      if !one.progress.Mirrored? then (one.progress, [], one.cache)
      else
        var r := SyncAllSpec(one.cache, segs[1..], one.rest);
        (r.0, [one.fs] + r.1, r.2)
  }

  /** The server sends the whole segment, and the disk works. */
  predicate Serves(seg: LogSegment, attempt: Attempt) {
    && seg.sha224.Sum? && |seg.sha224.of| == seg.size > 0
    && attempt == Attempt(Body(seg.sha224.of), true, true)
  }

  /** Whatever is in the cache, two attempts with a server and a disk that work are enough. */
  lemma ServedIsSynced(cache: Cache, seg: LogSegment, attempts: seq<Attempt>)
    requires |attempts| >= 2 && Serves(seg, attempts[0]) && Serves(seg, attempts[1])
    ensures SyncSpec(cache, seg, attempts).0.Synced?
  {
    var o := Try(cache, seg, attempts[0]);
    if o.Again? {
      AgainExactly(cache, seg, attempts[0]);
      assert Have(o.cache, seg.number) == [];
      assert Try(o.cache, seg, attempts[1]).Done?;
    }
  }

  /** The server refuses for now, as with a 5xx reply, and the disk works. */
  predicate RefusesForNow(attempts: seq<Attempt>) {
    |attempts| >= 2 && attempts[0] == Attempt(Failed(Retryable), true, true) && attempts[1] == attempts[0]
  }

  lemma RefusedForNow(cache: Cache, seg: LogSegment, attempts: seq<Attempt>)
    requires RefusesForNow(attempts) && seg.sha224.Sum? && |seg.sha224.of| == seg.size > 0
    ensures var r := SyncSpec(cache, seg, attempts).0; r.Synced? || r == NotSynced(Retryable)
  {
    var o := Try(cache, seg, attempts[0]);
    if o.Again? {
      AgainExactly(cache, seg, attempts[0]);
      assert Have(o.cache, seg.number) == [];
      assert attempts[1..][0] == attempts[0];
    }
  }

  /** Fewer than ten refusals before a try that is served do no harm, whatever is in the cache. */
  lemma {:induction false} RetriesHelp(cache: Cache, seg: LogSegment, tries: seq<seq<Attempt>>, n: nat, try: nat)
    requires 1 <= try && try + n <= 10 && n < |tries|
    requires forall i :: 0 <= i < n ==> RefusesForNow(tries[i])
    requires |tries[n]| >= 2 && Serves(seg, tries[n][0]) && Serves(seg, tries[n][1])
    ensures SyncOneSpec(cache, seg, tries, try).progress.Mirrored?
    decreases n
  {
    if n == 0 {
      ServedIsSynced(cache, seg, tries[0]);
    } else {
      RefusedForNow(cache, seg, tries[0]);
      RetriesHelp(SyncSpec(cache, seg, tries[0]).1, seg, tries[1..], n - 1, try + 1);
    }
  }

  /** Then every listed segment is mirrored. */
  lemma {:induction false} ServedIsMirrored(cache: Cache, segs: seq<LogSegment>, tries: seq<seq<Attempt>>)
    requires |tries| == |segs|
    requires forall i :: 0 <= i < |segs| ==> |tries[i]| >= 2 && Serves(segs[i], tries[i][0]) && Serves(segs[i], tries[i][1])
    ensures SyncAllSpec(cache, segs, tries).0.Mirrored?
    decreases |segs|
  {
    if segs != [] {
      ServedIsSynced(cache, segs[0], tries[0]);
      ServedIsMirrored(SyncOneSpec(cache, segs[0], tries, 1).cache, segs[1..], tries[1..]);
    }
  }

  /** The server numbers its segments apart, and its checksums fit its sizes. */
  ghost predicate WellListed(segs: seq<LogSegment>) {
    && (forall i, j :: 0 <= i < j < |segs| ==> segs[i].number != segs[j].number)
    && forall i :: 0 <= i < |segs| ==> !Troubled(segs[i])
  }

  ghost predicate AllWellListed(replies: seq<ListReply>) {
    forall reply | reply in replies && reply.Listing? :: WellListed(reply.segs)
  }

  /** fileSegs[i] is the mirror of segs[i]. */
  ghost predicate Mirrors(cache: Cache, fileSegs: seq<FileSeg>, segs: seq<LogSegment>) {
    |fileSegs| == |segs| && forall i :: 0 <= i < |segs| ==> Mirror(cache, fileSegs[i], segs[i])
  }

  ghost predicate Mirror(cache: Cache, fs: FileSeg, seg: LogSegment) {
    && fs == FileSeg(seg.number, fs.file, seg.sha224, 0, seg.size)
    && fs.file.number == seg.number
    && OnDisk(cache, fs)
  }

  /** What comparing a mirrored log with the last one comes to. */
  ghost predicate Compared(cache: Cache, last: seq<FileSeg>, last': seq<FileSeg>, fetched: seq<FileSeg>, r: Result) {
    && (r.New? ==>
        last' == fetched && Contents(last') == Contents(last) + Delivery(cache, r.segs) && Delivery(cache, r.segs) != [])
    && (r.ErrUnchanged? ==> Contents(fetched) == Contents(last))
    && (r.ErrSplit? <==> !SegmentPrefix(last, fetched))
    && (!(Contents(last) <= Contents(fetched)) ==> r.ErrSplit?)
    && (Appended(last, fetched) ==> !r.ErrSplit?)
  }

  /** Fetching fails exactly when the listing does or a segment is refused; otherwise the logs are compared. */
  ghost predicate Fetches(listed: ListResult, cache: Cache, tries: seq<seq<Attempt>>, r: Result) {
    match listed
    case ListError => r.ErrFetch?
    case UseLocalCache => r.FromLocalCache?
    case Listed(segs) =>
      match SyncAllSpec(cache, segs, tries).0
      case Refused => r.ErrFetch?
      case StillRunning => r.Running?
      case Mirrored => r.New? || r.ErrUnchanged? || r.ErrSplit?
  }

  /** One call of the reader: the server's replies, the attempts at each segment, and where reading stops if not at the end. */
  datatype Call = Call(replies: seq<ListReply>, tries: seq<seq<Attempt>>, stop: Option<nat>)

  function Cut(data: Bytes, stop: Option<nat>): (r: Bytes)
    ensures r <= data && |r| == if stop.Some? && stop.value < |data| then stop.value else |data|
  {
    if stop.Some? && stop.value < |data| then data[..stop.value] else data
  }

  /** The step says what the call did: it read up to its stop, and was offline exactly when it began with nothing and no network. */
  ghost predicate StepOf(call: Call, begun: Bytes, step: Step) {
    && (!step.Idle? ==> step.read == Cut(step.handed, call.stop))
    && (step.Offline? <==> begun == [] && ListSpec(call.replies, 0, 1).UseLocalCache?)
  }

  class NetMutSource {
    var last: seq<FileSeg>
    var cache: Cache

    constructor (cache: Cache)
      requires CacheOk(cache)
      ensures this.cache == cache && last == [] && Valid()
    {
      this.cache, last := cache, [];
    }

    /** Files named after a checksum have that checksum. */
    ghost predicate Valid()
      reads this
    {
      CacheOk(cache)
    }

    /** syncSeg. */
    method SyncSeg(seg: LogSegment, attempts: seq<Attempt>) returns (r: SyncResult)
      modifies this`cache
      ensures r == SyncSpec(old(cache), seg, attempts).0 && cache == SyncSpec(old(cache), seg, attempts).1
      decreases |attempts|
    {
      if attempts == [] {
        return Unfinished;
      }
      var frozen, partial := Frozen(seg.number, seg.sha224), Growing(seg.number);
      if frozen in cache && |cache[frozen]| == seg.size {
        return Synced(FileSeg(seg.number, frozen, seg.sha224, 0, seg.size), []);
      }
      var have := [];
      if partial in cache {
        have := cache[partial];
      }
      if |have| == seg.size && Sum224(have) == seg.sha224 {
        if !seg.isFinal {
          if partial !in cache || !attempts[0].written {
            return NotSynced(Terminal);
          }
          cache := (cache - {partial})[frozen := have];
          return Synced(FileSeg(seg.number, frozen, seg.sha224, 0, seg.size), []);
        }
        return Synced(FileSeg(seg.number, partial, seg.sha224, 0, seg.size), []);
      }
      var newData := [];
      if |have| < seg.size {
        match attempts[0].reply {
          case Failed(failure) => return NotSynced(failure);
          case Body(data) => newData := data;
        }
      }
      var newContents := [];
      if |newData| == seg.size {
        newContents := newData;
      } else if |have| + |newData| == seg.size {
        newContents := have + newData;
      } else if |have| > seg.size {
        newContents := have[..seg.size];
      }
      if Sum224(newContents) != seg.sha224 {
        if |have| == 0 {
          return NotSynced(Terminal);
        }
        if attempts[0].removed {
          cache := cache - {partial};
        }
        r := SyncSeg(seg, attempts[1..]);
        return;
      }
      if !attempts[0].written {
        return NotSynced(Terminal);
      }
      var finalName := if seg.isFinal then partial else frozen;
      cache := cache[finalName := newContents];
      r := Synced(FileSeg(seg.number, finalName, seg.sha224, 0, seg.size), newData);
    }

    /**
     The metadata loop. It gives up only on a terminal failure, after five retryable failures in a row,
     or when the context ends; n is the number of replies it used.
     */
    method GetServerSegments(replies: seq<ListReply>, sumLast: nat) returns (r: ListResult, n: nat)
      ensures r == ListSpec(replies, sumLast, 1)
      ensures n <= |replies| && forall i :: 0 <= i < n - 1 ==> replies[i].ListFailed?
      ensures r.Listed? ==> n > 0 && replies[n - 1] == Listing(r.segs)
      ensures r.UseLocalCache? ==> n > 0 && sumLast == 0 && replies[n - 1] == ListFailed(NoInternet)
      ensures r.ListError? ==>
                || n == |replies|
                || (n > 0 && replies[n - 1] == ListFailed(Terminal))
                || (n >= LIST_TRIES && forall i :: n - LIST_TRIES <= i < n ==> replies[i] == ListFailed(Retryable))
    {
      var try, k := 1, 0;
      while k < |replies|
        invariant 0 <= k <= |replies| && 1 <= try <= LIST_TRIES && try <= k + 1
        invariant forall i :: 0 <= i < k ==> replies[i].ListFailed?
        invariant forall i :: k - (try - 1) <= i < k ==> replies[i] == ListFailed(Retryable)
        invariant ListSpec(replies[k..], sumLast, try) == ListSpec(replies, sumLast, 1)
      {
        assert replies[k..][1..] == replies[k + 1..];
        match replies[k] {
          case Listing(segs) =>
            return Listed(segs), k + 1;
          case ListFailed(NoInternet) =>
            if sumLast == 0 {
              return UseLocalCache, k + 1;
            }
            try := 1;
          case ListFailed(Retryable) =>
            if try == LIST_TRIES {
              return ListError, k + 1;
            }
            try := try + 1;
          case ListFailed(Terminal) =>
            return ListError, k + 1;
        }
        k := k + 1;
      }
      return ListError, k;
    }

    /** Mirrors one segment, trying again as long as that may help. */
    method SyncOneSeg(seg: LogSegment, tries: seq<seq<Attempt>>) returns (progress: Progress, fs: FileSeg, rest: seq<seq<Attempt>>)
      requires Valid()
      modifies this`cache
      ensures OneSync(progress, fs, rest, cache) == SyncOneSpec(old(cache), seg, tries, 1)
      ensures Valid() && OnlyTouches(old(cache), cache, seg.number)
      ensures progress.Mirrored? && !Troubled(seg) ==> Mirror(cache, fs, seg)
    {
      fs, rest := NO_SEG, tries;
      var try: nat := 1;
      while rest != []
        invariant Valid() && OnlyTouches(old(cache), cache, seg.number) && fs == NO_SEG
        invariant SyncOneSpec(cache, seg, rest, try) == SyncOneSpec(old(cache), seg, tries, 1)
        decreases |rest|
      {
        SyncIsSafe(cache, seg, rest[0]);
        if !Troubled(seg) {
          SyncedIsRight(cache, seg, rest[0]);
        }
        var r := SyncSeg(seg, rest[0]);
        rest := rest[1..];
        match r {
          case Synced(file, _) =>
            return Mirrored, file, rest;
          case NotSynced(NoInternet) =>
            try := 1;
          case NotSynced(Retryable) =>
            if try == SEG_TRIES {
              return Refused, fs, rest;
            }
            try := try + 1;
          case NotSynced(Terminal) =>
            return Refused, fs, rest;
          case Unfinished =>
            return StillRunning, fs, rest;
        }
      }
      progress := Refused;
    }

    /** Mirrors every listed segment. Mirroring one leaves the mirrors of the others alone. */
    method SyncAll(segs: seq<LogSegment>, tries: seq<seq<Attempt>>) returns (progress: Progress, fileSegs: seq<FileSeg>)
      requires Valid()
      modifies this`cache
      ensures Valid()
      ensures var r := SyncAllSpec(old(cache), segs, tries);
              progress == r.0 && cache == r.2 && (progress.Mirrored? ==> fileSegs == r.1)
      ensures progress.Mirrored? && WellListed(segs) ==> Mirrors(cache, fileSegs, segs)
    {
      var rest := tries;
      progress, fileSegs := Mirrored, [];
      for k := 0 to |segs|
        invariant Valid() && progress.Mirrored? && (WellListed(segs) ==> Mirrors(cache, fileSegs, segs[..k]))
        invariant Onwards(SyncAllSpec(old(cache), segs, tries), fileSegs, SyncAllSpec(cache, segs[k..], rest))
      {
        ghost var before := cache;
        assert segs[k..][1..] == segs[k + 1..];
        var fs;
        progress, fs, rest := SyncOneSeg(segs[k], rest);
        if !progress.Mirrored? {
          return;
        }
        AppendAssoc(fileSegs, [fs], SyncAllSpec(cache, segs[k + 1..], rest).1);
        fileSegs := fileSegs + [fs];
        if WellListed(segs) {
          MirrorsMore(before, cache, fileSegs, segs, k);
        }
      }
      assert segs[..|segs|] == segs;
    }

    /**
     getNewSegments. `fetched` is the log as mirrored by this call, if it got that far.
     A new log that does not extend what was delivered is a split, and a split delivers nothing.
     */
    method GetNewSegments(replies: seq<ListReply>, tries: seq<seq<Attempt>>) returns (r: Result, ghost fetched: seq<FileSeg>)
      requires Valid()
      modifies this
      ensures Valid()
      ensures !r.New? ==> last == old(last)
      ensures r.FromLocalCache? <==> SumSize(old(last)) == 0 && ListSpec(replies, 0, 1).UseLocalCache?
      ensures Fetches(ListSpec(replies, SumSize(old(last)), 1), old(cache), tries, r)
      ensures r.FromLocalCache? ==> cache == old(cache) && LocalSegs(cache, r.segs)
      ensures SegsOk(old(last)) && AllWellListed(replies) ==> SegsOk(last)
      ensures SegsOk(old(last)) && AllWellListed(replies) && (r.New? || r.ErrUnchanged? || r.ErrSplit?) ==>
                && (exists segs :: Listing(segs) in replies && Mirrors(cache, fetched, segs))
                && Compared(cache, old(last), last, fetched, r)
    {
      fetched := [];
      var sumLast := SumSegSize(last);
      var listed, _ := GetServerSegments(replies, sumLast);
      ListedIsReply(replies, sumLast, 1);
      SameListing(replies, sumLast, 1);
      if listed.UseLocalCache? {
        var local := LocallyCachedSegments();
        return FromLocalCache(local), [];
      }
      if listed.ListError? {
        return ErrFetch, [];
      }
      var progress, fileSegs := SyncAll(listed.segs, tries);
      if !progress.Mirrored? {
        return if progress.Refused? then ErrFetch else Running, [];
      }
      fetched := fileSegs;
      r := Deliver(fileSegs, sumLast);
    }

    method SumSegSize(segs: seq<FileSeg>) returns (sum: nat)
      ensures sum == SumSize(segs)
    {
      sum := 0;
      for i := 0 to |segs|
        invariant SumSize(segs) == sum + SumSize(segs[i..])
      {
        sum := sum + segs[i].size;
        assert segs[i..][1..] == segs[i + 1..];
      }
    }

    /** The check of the mirrored log against the last one, and the trimming. */
    method Deliver(fileSegs: seq<FileSeg>, sumLast: nat) returns (r: Result)
      requires sumLast == SumSize(last)
      modifies this`last
      ensures r.New? || r.ErrUnchanged? || r.ErrSplit?
      ensures last == if r.New? then fileSegs else old(last)
      ensures Fit(cache, fileSegs, old(last)) ==> Compared(cache, old(last), last, fileSegs, r)
    {
      var sumCommon := SumCommonPrefixSize(cache, fileSegs, last);
      if Fit(cache, fileSegs, last) {
        PrefixFacts(fileSegs, last);
      }
      if sumCommon != sumLast {
        return ErrSplit;
      }
      var sumCur := SumSegSize(fileSegs);
      if sumCommon == sumCur {
        return ErrUnchanged;
      }
      var newSegs := TrimLeadingSegBytes(cache, fileSegs, sumCommon);
      if Fit(cache, fileSegs, last) {
        NewIsCompared(cache, fileSegs, last, newSegs);
      }
      last, r := fileSegs, New(newSegs);
    }

    /** foreachFileSeg over the segments: the bytes handed on to the record reader, which may stop before the end. */
    method ReadSegs(segs: seq<FileSeg>, stop: Option<nat>) returns (data: Bytes)
      ensures data == Cut(Delivery(cache, segs), stop)
    {
      data := [];
      for i := 0 to |segs|
        invariant Delivery(cache, segs) == data + Delivery(cache, segs[i..])
        invariant stop.Some? ==> |data| <= stop.value
      {
        var more := ReadOf(cache, segs[i]);
        DeliveryStep(cache, segs, i, data);
        if stop.Some? && |data| + |more| > stop.value {
          CutInside(data, more, Delivery(cache, segs[i + 1..]), stop.value);
          return data + more[..stop.value - |data|];
        }
        data := data + more;
      }
    }

    /**
     locallyCachedSegments: the frozen files from number 0 on, as long as there are any, and then possibly a growing
     one. Of several frozen files with one number any may be taken.
     */
    method LocallyCachedSegments() returns (segs: seq<FileSeg>)
      requires Valid()
      ensures LocalSegs(cache, segs)
    {
      segs := [];
      var left := set f | f in cache.Keys && f.Frozen? && f.number >= 0;
      while exists f :: f in cache.Keys && f.Frozen? && f.number == |segs|
        invariant LocalRun(cache, segs) && forall i :: 0 <= i < |segs| ==> segs[i].file.Frozen?
        invariant left == set f | f in cache.Keys && f.Frozen? && f.number >= |segs|
        decreases left
      {
        var f :| f in cache.Keys && f.Frozen? && f.number == |segs|;
        assert f in left;
        assert f == Frozen(f.number, f.sha224);
        segs := segs + [FileSeg(f.number, f, f.sha224, 0, |cache[f]|)];
        left := set x | x in cache.Keys && x.Frozen? && x.number >= |segs|;
        assert f !in left;
      }
      var growing := Growing(|segs|);
      if growing in cache {
        segs := segs + [FileSeg(|segs|, growing, Sum224(cache[growing]), 0, |cache[growing]|)];
      }
    }

    /** One call of fetchAndSendMutations. */
    method FetchAndSend(call: Call) returns (data: Bytes, ghost step: Step)
      requires Valid()
      modifies this
      ensures Valid()
      ensures data == if step.Idle? then [] else step.read
      ensures SegsOk(old(last)) && AllWellListed(call.replies) ==>
                && SegsOk(last)
                && StepOf(call, Contents(old(last)), step)
                && Contents(last) == Contents(old(last)) + if step.Online? then step.handed else []
    {
      var r, fetched := GetNewSegments(call.replies, call.tries);
      if SegsOk(old(last)) {
        ContentsSize(old(last));
      }
      if r.New? || r.FromLocalCache? {
        data := ReadSegs(r.segs, call.stop);
        step := if r.New? then Online(Delivery(cache, r.segs), data) else Offline(Delivery(cache, r.segs), data);
      } else {
        data, step := [], Idle;
      }
    }

    /**
     Any run of calls. What was read and what counts as delivered are those of its steps; they are the same if no call
     was answered from the local cache and every one read to the end.
     */
    method Follow(calls: seq<Call>) returns (data: Bytes, ghost steps: seq<Step>)
      requires Valid() && last == []
      modifies this
      ensures Valid() && |steps| == |calls| && data == Sent(steps)
      ensures (forall c | c in calls :: AllWellListed(c.replies)) ==>
                && SegsOk(last) && Contents(last) == Held(steps) && StepsOf(calls, steps)
                && ((forall c | c in calls :: OnlineToTheEnd(c)) ==> data == Contents(last))
    {
      data, steps := [], [];
      ghost var fit := forall c | c in calls :: AllWellListed(c.replies);
      for i := 0 to |calls|
        invariant Valid() && |steps| == i && data == Sent(steps)
        invariant fit ==> SegsOk(last) && Contents(last) == Held(steps) && StepsOf(calls[..i], steps)
      {
        assert calls[i] in calls;
        var more, step := FetchAndSend(calls[i]);
        SentMore(steps, step);
        if fit {
          StepsMore(calls, i, steps, step);
        }
        data, steps := data + more, steps + [step];
      }
      assert calls[..|calls|] == calls;
      if fit && forall c | c in calls :: OnlineToTheEnd(c) {
        OnlineIsExact(calls, steps);
      }
    }
  }

  /** The call reads to the end and is not answered from the local cache. */
  predicate OnlineToTheEnd(c: Call) {
    c.stop.None? && !ListSpec(c.replies, 0, 1).UseLocalCache?
  }

  /** The steps are those of the calls. */
  ghost predicate StepsOf(calls: seq<Call>, steps: seq<Step>) {
    |steps| == |calls| && forall k :: 0 <= k < |calls| ==> StepOf(calls[k], Held(steps[..k]), steps[k]) && Reads(steps[k])
  }

  lemma SentMore(steps: seq<Step>, step: Step)
    ensures Sent(steps + [step]) == Sent(steps) + if step.Idle? then [] else step.read
    ensures Held(steps + [step]) == Held(steps) + if step.Online? then step.handed else []
  {
    assert (steps + [step])[..|steps|] == steps;
  }

  lemma StepsMore(calls: seq<Call>, i: nat, steps: seq<Step>, step: Step)
    requires i < |calls| && StepsOf(calls[..i], steps) && StepOf(calls[i], Held(steps), step)
    ensures StepsOf(calls[..i + 1], steps + [step])
  {
    var all, cs := steps + [step], calls[..i + 1];
    forall k | 0 <= k <= i ensures StepOf(cs[k], Held(all[..k]), all[k]) && Reads(all[k]) {
      if k < i {
        assert all[..k] == steps[..k] && cs[k] == calls[..i][k] && all[k] == steps[k];
      } else {
        assert all[..k] == steps;
      }
    }
  }

  lemma OnlineIsExact(calls: seq<Call>, steps: seq<Step>)
    requires StepsOf(calls, steps) && forall c | c in calls :: OnlineToTheEnd(c)
    ensures Sent(steps) == Held(steps)
  {
    forall k | 0 <= k < |calls| ensures ReadsExactly(steps[k]) {
      assert calls[k] in calls;
    }
    ExactlyOnceExactly(steps);
    assert steps[..|steps|] == steps;
  }

  lemma DeliveryStep(cache: Cache, segs: seq<FileSeg>, i: nat, data: Bytes)
    requires i < |segs|
    ensures data + Delivery(cache, segs[i..]) == (data + ReadOf(cache, segs[i])) + Delivery(cache, segs[i + 1..])
  {
    assert segs[i..][1..] == segs[i + 1..];
    AppendAssoc(data, ReadOf(cache, segs[i]), Delivery(cache, segs[i + 1..]));
  }

  lemma CutInside(data: Bytes, more: Bytes, rest: Bytes, n: nat)
    requires |data| <= n < |data| + |more|
    ensures Cut((data + more) + rest, Some(n)) == data + more[..n - |data|]
  {
  }

  /** The rest of a loop over segments, with what was mirrored before it. */
  ghost predicate Onwards(all: (Progress, seq<FileSeg>, Cache), done: seq<FileSeg>, rest: (Progress, seq<FileSeg>, Cache)) {
    all.0 == rest.0 && all.1 == done + rest.1 && all.2 == rest.2
  }

  lemma {:induction false} SameListing(replies: seq<ListReply>, sumLast: nat, try: nat)
    ensures ListSpec(replies, sumLast, try).UseLocalCache? <==> sumLast == 0 && ListSpec(replies, 0, try).UseLocalCache?
  {
    if sumLast != 0 {
      ListedIsReply(replies, sumLast, try);
    }
  }

  lemma MirrorsMore(before: Cache, cache: Cache, fileSegs: seq<FileSeg>, segs: seq<LogSegment>, k: nat)
    requires k < |segs| && |fileSegs| == k + 1 && WellListed(segs)
    requires Mirrors(before, fileSegs[..k], segs[..k]) && OnlyTouches(before, cache, segs[k].number) && Mirror(cache, fileSegs[k], segs[k])
    ensures Mirrors(cache, fileSegs, segs[..k + 1])
  {
    forall i | 0 <= i < k ensures Mirror(cache, fileSegs[i], segs[i]) {
      assert fileSegs[..k][i] == fileSegs[i] && segs[..k][i] == segs[i];
      assert Mirror(before, fileSegs[i], segs[i]) && segs[i].number != segs[k].number;
    }
  }

  lemma PrefixFacts(now: seq<FileSeg>, was: seq<FileSeg>)
    requires SegsOk(now) && SegsOk(was)
    ensures |Contents(was)| == SumSize(was) && |Contents(now)| == SumSize(now)
    ensures Appended(was, now) ==> SegmentPrefix(was, now)
    ensures SegmentPrefix(was, now) ==> Contents(was) <= Contents(now)
  {
    ContentsSize(was);
    ContentsSize(now);
    if Appended(was, now) {
      NoFalseSplit(was, now);
    }
    if SegmentPrefix(was, now) {
      SegmentPrefixIsPrefix(was, now);
    }
  }

  lemma NewIsCompared(cache: Cache, now: seq<FileSeg>, was: seq<FileSeg>, newSegs: seq<FileSeg>)
    requires SegsOk(now) && SegsOk(was) && SegmentPrefix(was, now) && SumSize(was) != SumSize(now)
    requires Delivery(cache, newSegs) == Dropped(Contents(now), SumSize(was))
    ensures Compared(cache, was, now, now, New(newSegs))
  {
    PrefixFacts(now, was);
    RestIs(Contents(was), Contents(now));
  }

  lemma RestIs(was: Bytes, now: Bytes)
    requires was <= now && |was| != |now|
    ensures Dropped(now, |was|) != [] && now == was + Dropped(now, |was|)
  {
  }

  /** Segments of the local cache: files that are there, numbered from 0 on. */
  ghost predicate LocalRun(cache: Cache, segs: seq<FileSeg>) {
    forall i :: 0 <= i < |segs| ==>
      SegOk(segs[i]) && OnDisk(cache, segs[i]) && segs[i].seg == i && segs[i].file.number == i
  }

  /** They are all there are, up to the first number that has no frozen file. */
  ghost predicate LocalSegs(cache: Cache, segs: seq<FileSeg>) {
    && LocalRun(cache, segs)
    && (forall i :: 0 <= i < |segs| - 1 ==> segs[i].file.Frozen?)
    && (segs == [] || segs[|segs| - 1].file.Frozen? ==>
          Growing(|segs|) !in cache && forall sum :: Frozen(|segs|, sum) !in cache)
  }

  // ---- Two runs that fail ----

  /** A log of one byte. */
  function OneByteLog(x: Byte): seq<LogSegment> {
    [LogSegment(0, 1, Sum224([x]), true)]
  }

  function OneByteTries(x: Byte): seq<seq<Attempt>> {
    [[Attempt(Body([x]), true, true), Attempt(Body([x]), true, true)]]
  }

  lemma OneByteIsMirrored(cache: Cache, x: Byte)
    ensures SyncAllSpec(cache, OneByteLog(x), OneByteTries(x)).0.Mirrored? && WellListed(OneByteLog(x))
  {
    ServedIsMirrored(cache, OneByteLog(x), OneByteTries(x));
  }

  /** The log consists of one segment of one byte. */
  predicate IsByte(segs: seq<FileSeg>, x: Byte) {
    |segs| == 1 && SegOk(segs[0]) && segs[0].sha224 == Sum224([x])
  }

  lemma OneSegIs(cache: Cache, segs: seq<FileSeg>, x: Byte)
    requires IsByte(segs, x)
    ensures Contents(segs) == [x] && SegsOk(segs)
    ensures AllOnDisk(cache, segs) ==> Delivery(cache, segs) == [x]
  {
    assert segs[1..] == [];
    if AllOnDisk(cache, segs) {
      DeliveryIsContents(cache, segs);
    }
  }

  lemma MirroredByteIs(cache: Cache, segs: seq<FileSeg>, x: Byte)
    requires Mirrors(cache, segs, OneByteLog(x))
    ensures IsByte(segs, x) && Contents(segs) == [x] && SegsOk(segs)
  {
    assert Mirror(cache, segs[0], OneByteLog(x)[0]);
    OneSegIs(cache, segs, x);
  }

  /** A log of one byte compares with itself as unchanged. */
  lemma SameByte(cache: Cache, was: seq<FileSeg>, last: seq<FileSeg>, now: seq<FileSeg>, x: Byte, r: Result)
    requires IsByte(was, x) && IsByte(now, x) && (r.New? || r.ErrUnchanged? || r.ErrSplit?) && Compared(cache, was, last, now, r)
    ensures r.ErrUnchanged?
  {
    OneSegIs(cache, was, x);
    OneSegIs(cache, now, x);
    assert was[1..] == [] && now[1..] == [];
    assert SegmentPrefix(was, now);
  }

  lemma CachedByteIs(cache: Cache, segs: seq<FileSeg>, x: Byte)
    requires cache == map[Growing(0) := [x]] && LocalSegs(cache, segs)
    ensures Delivery(cache, segs) == [x]
  {
    assert segs != [] ==> segs[0].file == Growing(0);
    OneSegIs(cache, segs, x);
  }

  /** A source that starts without a network and has a byte in its cache sends it, and sends it again from the server. */
  method OfflineRun(x: Byte) returns (data: Bytes)
    ensures data == [x, x]
  {
    var ns := new NetMutSource(map[Growing(0) := [x]]);
    var r, _ := ns.GetNewSegments([ListFailed(NoInternet)], []);
    CachedByteIs(ns.cache, r.segs, x);
    data := ns.ReadSegs(r.segs, None);
    var more := ReadByte(ns, x, None);
    data := data + more;
  }

  /** A source that stops reading loses the byte: the server has nothing new any more. */
  method InterruptedRun(x: Byte) returns (data: Bytes, again: Result)
    ensures data == [] && again.ErrUnchanged?
  {
    var ns := new NetMutSource(map[]);
    data := ReadByte(ns, x, Some(0));
    OneByteIsMirrored(ns.cache, x);
    ghost var was := ns.last;
    OneSegIs(ns.cache, was, x);
    var r, fetched := ns.GetNewSegments([Listing(OneByteLog(x))], OneByteTries(x));
    MirroredByteIs(ns.cache, fetched, x);
    SameByte(ns.cache, was, ns.last, fetched, x, r);
    again := r;
  }

  /** The first call online of a source that has delivered nothing. */
  method ReadByte(ns: NetMutSource, x: Byte, stop: Option<nat>) returns (data: Bytes)
    requires ns.Valid() && ns.last == []
    modifies ns
    ensures ns.Valid() && IsByte(ns.last, x) && data == Cut([x], stop)
  {
    OneByteIsMirrored(ns.cache, x);
    var r, fetched := ns.GetNewSegments([Listing(OneByteLog(x))], OneByteTries(x));
    MirroredByteIs(ns.cache, fetched, x);
    data := ns.ReadSegs(r.segs, stop);
  }
}
