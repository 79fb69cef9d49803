/**
 A follower's view of the leader's log (maintner/netsource.go): the log is a list of segments,
 each with a size and a checksum, that is mirrored in a cache directory and delivered exactly once.
 */
module NetSource {
  import opened Basics

  /** A SHA-224 checksum, taken to be collision-free. NotASum is text that is the checksum of nothing. */
  datatype Digest = Sum(of: Bytes) | NotASum(text: string)

  function Sum224(data: Bytes): Digest {
    Sum(data)
  }

  /** A file of the cache: NNNN.<sha224>.mutlog, or NNNN.growing.mutlog. */
  datatype FileName = Frozen(number: int, sha224: Digest) | Growing(number: int)

  type Cache = map<FileName, Bytes>

  /** A segment as the server lists it. The final segment is still growing on the server. */
  datatype LogSegment = LogSegment(number: int, size: nat, sha224: Digest, isFinal: bool)

  datatype FileSeg = FileSeg(seg: int, file: FileName, sha224: Digest, skip: nat, size: nat)

  datatype Failure = NoInternet | Retryable | Terminal

  /** Files named after a checksum have that checksum. */
  ghost predicate CacheOk(cache: Cache) {
    forall number, sha224 | Frozen(number, sha224) in cache :: Sum224(cache[Frozen(number, sha224)]) == sha224
  }

  // ---- Mirroring one segment ----

  datatype Reply = Body(data: Bytes) | Failed(failure: Failure)

  /**
   What the outside world does during one attempt of syncSeg. The server's reply counts only if a request is made; a
   context that has ended makes the request fail.
   */
  datatype Attempt = Attempt(reply: Reply, written: bool, removed: bool)

  /** Unfinished: the call has not returned yet. */
  datatype SyncResult = Synced(file: FileSeg, newData: Bytes) | NotSynced(failure: Failure) | Unfinished

  /** One attempt either ends, or removes the growing file and starts over. */
  datatype Outcome = Done(result: SyncResult, cache: Cache) | Again(cache: Cache)

  function Have(cache: Cache, number: int): Bytes {
    if Growing(number) in cache then cache[Growing(number)] else []
  }

  /** The contents to commit, from what the cache has and what the server sent. The server may ignore Range. */
  function NewContents(have: Bytes, newData: Bytes, size: nat): Bytes {
    if |newData| == size then newData
    else if |have| + |newData| == size then have + newData
    else if |have| > size then have[..size]
    else []
  }

  function Done'(cache: Cache, seg: LogSegment, name: FileName, newData: Bytes): Outcome {
    Done(Synced(FileSeg(seg.number, name, seg.sha224, 0, seg.size), newData), cache)
  }

  /** Checks the new contents and puts them in place. */
  function Commit(cache: Cache, seg: LogSegment, newData: Bytes, attempt: Attempt): Outcome {
    var partial := Growing(seg.number);
    var have := Have(cache, seg.number);
    var contents := NewContents(have, newData, seg.size);
    if Sum224(contents) != seg.sha224 then
      if |have| == 0 then Done(NotSynced(Terminal), cache)
      else Again(if attempt.removed then cache - {partial} else cache)
    else if !attempt.written then Done(NotSynced(Terminal), cache)
    else
      var name := if seg.isFinal then partial else Frozen(seg.number, seg.sha224);
      Done'(cache[name := contents], seg, name, newData)
  }

  function Try(cache: Cache, seg: LogSegment, attempt: Attempt): Outcome {
    var frozen, partial, have := Frozen(seg.number, seg.sha224), Growing(seg.number), Have(cache, seg.number);
    if frozen in cache && |cache[frozen]| == seg.size then Done'(cache, seg, frozen, [])
    else if |have| == seg.size && Sum224(have) == seg.sha224 then
      if seg.isFinal then Done'(cache, seg, partial, [])
      else if partial !in cache || !attempt.written then Done(NotSynced(Terminal), cache)
      else Done'((cache - {partial})[frozen := have], seg, frozen, [])
    else if |have| < seg.size then
      match attempt.reply
      case Failed(failure) => Done(NotSynced(failure), cache)
      case Body(newData) => Commit(cache, seg, newData, attempt)
    else Commit(cache, seg, [], attempt)
  }

  /** syncSeg after so many attempts: its result, the cache, and how many of the attempts it took. */
  function SyncSpec(cache: Cache, seg: LogSegment, attempts: seq<Attempt>): (r: (SyncResult, Cache, nat)) {
    if attempts == [] then (Unfinished, cache, 0)
    else
      match Try(cache, seg, attempts[0])
      case Done(result, cache') => (result, cache', 1)
      case Again(cache') =>
        var r := SyncSpec(cache', seg, attempts[1..]);
        (r.0, r.1, r.2 + 1)
  }

  /** Other segments' files, and frozen files, are as they were. */
  ghost predicate OnlyTouches(before: Cache, after: Cache, number: int) {
    && (forall f | f in before && (f.Frozen? || f.number != number) :: f in after && after[f] == before[f])
    && (forall f | f in after && f !in before :: f.number == number)
  }

  lemma TryIsSafe(cache: Cache, seg: LogSegment, attempt: Attempt)
    requires CacheOk(cache)
    ensures var o := Try(cache, seg, attempt);
            CacheOk(o.cache) && OnlyTouches(cache, o.cache, seg.number)
  {
  }

  /** Every run of syncSeg keeps the checksums of frozen files true and touches only its own segment's growing file. */
  lemma {:induction false} SyncIsSafe(cache: Cache, seg: LogSegment, attempts: seq<Attempt>)
    requires CacheOk(cache)
    ensures var r := SyncSpec(cache, seg, attempts);
            CacheOk(r.1) && OnlyTouches(cache, r.1, seg.number)
  {
    if attempts != [] {
      TryIsSafe(cache, seg, attempts[0]);
      var o := Try(cache, seg, attempts[0]);
      if o.Again? {
        SyncIsSafe(o.cache, seg, attempts[1..]);
      }
    }
  }

  /** The file that a success hands back is there and is the segment that was asked for. */
  ghost predicate RightFile(r: (SyncResult, Cache, nat), seg: LogSegment) {
    r.0.Synced? ==>
      && r.0.file == FileSeg(seg.number, r.0.file.file, seg.sha224, 0, seg.size)
      && r.0.file.file.number == seg.number
      && r.0.file.file in r.1
      && |r.1[r.0.file.file]| == seg.size
      && Sum224(r.1[r.0.file.file]) == seg.sha224
  }

  /** The listing carries the checksum of no data for a segment that has data or is still growing. */
  predicate Troubled(seg: LogSegment) {
    seg.sha224 == Sum224([]) && (seg.size > 0 || seg.isFinal)
  }

  lemma {:induction false} SyncedIsRight(cache: Cache, seg: LogSegment, attempts: seq<Attempt>)
    requires CacheOk(cache) && !Troubled(seg)
    ensures RightFile(SyncSpec(cache, seg, attempts), seg)
  {
    if attempts != [] {
      var o := Try(cache, seg, attempts[0]);
      TryIsSafe(cache, seg, attempts[0]);
      if o.Again? {
        SyncedIsRight(o.cache, seg, attempts[1..]);
      }
    }
  }

  lemma WrongFile(seg: LogSegment) returns (cache: Cache, attempts: seq<Attempt>)
    requires Troubled(seg)
    ensures CacheOk(cache) && !RightFile(SyncSpec(cache, seg, attempts), seg)
  {
    cache, attempts := map[], [Attempt(Body([]), true, true)];
  }

  /**
   syncSeg can hand back a wrong or missing file exactly for a troubled listing: a download of the
   wrong length leaves the new contents empty, and an empty growing segment passes without a file.
   */
  lemma RightFileExactlyWhenUntroubled(seg: LogSegment)
    ensures (forall cache, attempts | CacheOk(cache) :: RightFile(SyncSpec(cache, seg, attempts), seg)) <==> !Troubled(seg)
  {
    if Troubled(seg) {
      var cache, attempts := WrongFile(seg);
    } else {
      forall cache, attempts | CacheOk(cache) ensures RightFile(SyncSpec(cache, seg, attempts), seg) {
        SyncedIsRight(cache, seg, attempts);
      }
    }
  }

  // ---- What an attempt needs ----

  /** The attempt succeeded: the segment's data is in that file, and so much was sent for it. */
  predicate Success(o: Outcome, seg: LogSegment, name: FileName, data: Bytes, sent: Bytes) {
    && o.Done? && o.result == Synced(FileSeg(seg.number, name, seg.sha224, 0, seg.size), sent)
    && name in o.cache && o.cache[name] == data
  }

  /** Where a segment is put: a growing one stays under its number, any other is named after its checksum. */
  function NameOf(seg: LogSegment): FileName {
    if seg.isFinal then Growing(seg.number) else Frozen(seg.number, seg.sha224)
  }

  /** A segment that is in the cache already needs no request, even if the growing file has more. */
  lemma CachedIsEnough(cache: Cache, seg: LogSegment, data: Bytes, attempt: Attempt)
    requires CacheOk(cache) && seg.sha224 == Sum224(data) && |data| == seg.size > 0 && attempt.written
    ensures Frozen(seg.number, seg.sha224) in cache ==>
              Success(Try(cache, seg, attempt), seg, Frozen(seg.number, seg.sha224), data, [])
    ensures Frozen(seg.number, seg.sha224) !in cache && data <= Have(cache, seg.number) ==>
              Success(Try(cache, seg, attempt), seg, NameOf(seg), data, [])
    ensures Frozen(seg.number, seg.sha224) !in cache && data == Have(cache, seg.number) && !seg.isFinal ==>
              Growing(seg.number) !in Try(cache, seg, attempt).cache
  {
    var have := Have(cache, seg.number);
    assert data <= have ==> have[..seg.size] == data;
  }

  /**
   If the growing file has the beginning of the segment, one request is enough, whether the server honours the Range and
   sends the rest or ignores it and sends all. A request that fails is the failure, and changes nothing.
   */
  lemma ResumedInOneGo(cache: Cache, seg: LogSegment, data: Bytes, attempt: Attempt)
    requires seg.sha224 == Sum224(data) && |data| == seg.size && Frozen(seg.number, seg.sha224) !in cache
    requires var have := Have(cache, seg.number); have <= data && have != data
    ensures attempt.written && attempt.reply == Body(data) ==> Success(Try(cache, seg, attempt), seg, NameOf(seg), data, data)
    ensures var rest := data[|Have(cache, seg.number)|..];
            attempt.written && attempt.reply == Body(rest) ==> Success(Try(cache, seg, attempt), seg, NameOf(seg), data, rest)
    ensures attempt.reply.Failed? ==> Try(cache, seg, attempt) == Done(NotSynced(attempt.reply.failure), cache)
  {
    var have := Have(cache, seg.number);
    assert have + data[|have|..] == data;
  }

  /**
   How a request that is answered ends: what makes up the segment is put in place, if the disk lets it; anything else is a
   terminal failure if there was no growing file to blame.
   */
  lemma AnswerEnds(cache: Cache, seg: LogSegment, attempt: Attempt)
    requires !FrozenIsUsable(cache, seg) && |Have(cache, seg.number)| < seg.size && attempt.reply.Body?
    ensures var have, data := Have(cache, seg.number), attempt.reply.data;
            && (MakesUp(have, data, seg) && attempt.written ==>
                  Try(cache, seg, attempt).Done?
                  && Try(cache, seg, attempt).result == Synced(FileSeg(seg.number, NameOf(seg), seg.sha224, 0, seg.size), data))
            && (MakesUp(have, data, seg) && !attempt.written ==> Try(cache, seg, attempt) == Done(NotSynced(Terminal), cache))
            && (!MakesUp(have, data, seg) && have == [] ==> Try(cache, seg, attempt) == Done(NotSynced(Terminal), cache))
  {
  }

  /** Without a working disk nothing is put in place. */
  lemma UnwrittenChangesNothing(cache: Cache, seg: LogSegment, attempt: Attempt)
    requires !attempt.written
    ensures Try(cache, seg, attempt).Done? ==> Try(cache, seg, attempt).cache == cache
  {
  }

  // ---- How often syncSeg starts over ----

  predicate FrozenIsUsable(cache: Cache, seg: LogSegment) {
    var frozen := Frozen(seg.number, seg.sha224);
    frozen in cache && |cache[frozen]| == seg.size
  }

  /** The growing file cannot become the segment, whatever the server sends. */
  predicate Hopeless(cache: Cache, seg: LogSegment) {
    var have := Have(cache, seg.number);
    !FrozenIsUsable(cache, seg) && have != [] && |have| >= seg.size && Sum224(have[..seg.size]) != seg.sha224
  }

  /** What the server sends is the segment, or it is the rest of it. Anything of another length counts as no data. */
  predicate MakesUp(have: Bytes, newData: Bytes, seg: LogSegment) {
    if |newData| == seg.size then Sum224(newData) == seg.sha224
    else if |have| + |newData| == seg.size then Sum224(have + newData) == seg.sha224
    else seg.sha224 == Sum224([])
  }

  /** The growing file and what the server sends do not make up the segment. */
  predicate Mismatched(cache: Cache, seg: LogSegment, reply: Reply) {
    var have := Have(cache, seg.number);
    || Hopeless(cache, seg)
    || (&& !FrozenIsUsable(cache, seg) && have != [] && |have| < seg.size
        && reply.Body? && !MakesUp(have, reply.data, seg))
  }

  /** An attempt starts over exactly on a mismatch. The cache stays as it is if the growing file cannot be removed. */
  lemma AgainExactly(cache: Cache, seg: LogSegment, attempt: Attempt)
    ensures Try(cache, seg, attempt).Again? <==> Mismatched(cache, seg, attempt.reply)
    ensures Mismatched(cache, seg, attempt.reply) ==>
              Try(cache, seg, attempt).cache == if attempt.removed then cache - {Growing(seg.number)} else cache
  {
    var have := Have(cache, seg.number);
    assert |have| == seg.size ==> have[..seg.size] == have;
    assert seg.size == 0 ==> have[..seg.size] == [];
  }

  /** When the growing file can be removed, syncSeg starts over at most once. */
  lemma AtMostOneRetry(cache: Cache, seg: LogSegment, attempts: seq<Attempt>)
    requires attempts != [] ==> attempts[0].removed
    ensures SyncSpec(cache, seg, attempts).2 <= 2
  {
    if attempts != [] {
      var o := Try(cache, seg, attempts[0]);
      if o.Again? && |attempts| > 1 {
        assert Have(o.cache, seg.number) == [];
        assert Try(o.cache, seg, attempts[1..][0]).Done?;
      }
    }
  }

  /**
   When it cannot be removed, a hopeless file keeps syncSeg busy for ever: no request is made, so neither the server nor
   the context can end it.
   */
  lemma {:induction false} NeverReturns(cache: Cache, seg: LogSegment, attempts: seq<Attempt>)
    requires Hopeless(cache, seg) && forall a | a in attempts :: !a.removed
    ensures SyncSpec(cache, seg, attempts) == (Unfinished, cache, |attempts|)
  {
    if attempts != [] {
      assert attempts[0] in attempts;
      AgainExactly(cache, seg, attempts[0]);
      NeverReturns(cache, seg, attempts[1..]);
    }
  }

  /**
   A request that fails, as all do once the context has ended, makes syncSeg return, if and only if the growing file is
   not hopeless.
   */
  lemma {:induction false} FailureEndsIt(cache: Cache, seg: LogSegment, attempts: seq<Attempt>)
    requires attempts != [] && attempts[|attempts| - 1].reply.Failed? && forall a | a in attempts :: !a.removed
    ensures SyncSpec(cache, seg, attempts).0.Unfinished? <==> Hopeless(cache, seg)
  {
    if Hopeless(cache, seg) {
      NeverReturns(cache, seg, attempts);
    } else {
      assert attempts[0] in attempts;
      AgainExactly(cache, seg, attempts[0]);
      if Mismatched(cache, seg, attempts[0].reply) {
        assert |attempts| > 1;
        FailureEndsIt(cache, seg, attempts[1..]);
      }
    }
  }

  /** The growing file may be started over. */
  predicate Retriable(cache: Cache, seg: LogSegment) {
    var have := Have(cache, seg.number);
    Hopeless(cache, seg) || (!FrozenIsUsable(cache, seg) && 0 < |have| < seg.size)
  }

  lemma SomeMismatch(cache: Cache, seg: LogSegment) returns (reply: Reply)
    requires Retriable(cache, seg)
    ensures Mismatched(cache, seg, reply)
  {
    reply := Body([]);
    if seg.sha224 == Sum224([]) {
      var data := seq(seg.size, _ => 0);
      reply := Body(data);
    }
  }

  lemma {:induction false} KeepsRetrying(cache: Cache, seg: LogSegment, reply: Reply, attempts: seq<Attempt>)
    requires Mismatched(cache, seg, reply) && forall a | a in attempts :: a.reply == reply && !a.removed
    ensures SyncSpec(cache, seg, attempts).2 == |attempts|
  {
    if attempts != [] {
      assert attempts[0] in attempts;
      AgainExactly(cache, seg, attempts[0]);
      KeepsRetrying(cache, seg, reply, attempts[1..]);
    }
  }

  /** syncSeg starts over at most once in all circumstances if and only if the growing file is not one to start over. */
  lemma RetryBound(cache: Cache, seg: LogSegment)
    ensures (forall attempts :: SyncSpec(cache, seg, attempts).2 <= 2) <==> !Retriable(cache, seg)
  {
    if Retriable(cache, seg) {
      var reply := SomeMismatch(cache, seg);
      var a := Attempt(reply, false, false);
      KeepsRetrying(cache, seg, reply, [a, a, a]);
      assert SyncSpec(cache, seg, [a, a, a]).2 == 3;
    } else {
      forall attempts: seq<Attempt> ensures SyncSpec(cache, seg, attempts).2 <= 2 {
        if attempts != [] {
          AgainExactly(cache, seg, attempts[0]);
        }
      }
    }
  }
}
