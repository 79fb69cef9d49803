/**
 The parallel compressor (pargzip/pargzip.go) as a machine of interleaved steps: the caller of Write and Close, one
 goroutine for each chunk that is being compressed, and the goroutine that writes compressed chunks in order.
 */
module Pargzip {
  import opened Basics

  /** A compression goroutine: at work; done, but still holding its semaphore token; gone. */
  datatype Compression = Compressing | Done(failed: bool) | Released(failed: bool)

  /** The caller. Submitting is the loop of newChunkWriter.Write, Sending the select of startChunk. */
  datatype Client =
    | Idle
    | Submitting(rest: Bytes, closing: bool)
    | Sending(id: nat, rest: Bytes, closing: bool)
    | Waiting

  /** The writing goroutine. */
  datatype Goroutine = NotStarted | Receiving | Awaiting(id: nat) | Failing | Signalling | Ending | Ended

  datatype CloseResult = NotYet | Nil | Failed

  datatype Config = Config(chunkSize: nat, parallel: nat)

  datatype State = State(
    client: Client,
    pending: Bytes,  // in the bufio.Writer
    parts: seq<Bytes>,  // the chunks started so far, uncompressed
    work: seq<Compression>,
    sem: nat,
    queue: seq<nat>, queueClosed: bool,  // chunkc
    goroutine: Goroutine,
    err: bool, signalled: bool, closed: bool,  // signalled: wasWriteErr is closed
    out: Bytes,  // what the underlying writer has got
    // History: all bytes passed to Write; the chunks written whole; what was written of one that failed;
    // what the first Close returned.
    input: Bytes, written: nat, torn: Bytes, firstClose: CloseResult)

  const START := State(Idle, [], [], [], 0, [], false, NotStarted, false, false, false, [], [], 0, [], NotYet)

  datatype Action =
    // The caller's choices
    | BeginWrite(p: Bytes) | BeginClose
    // The caller's steps
    | HandOff(n: nat) | EndWrite | Acquire | Send | Discard | CloseQueue | FinishClose
    // The compressions' steps
    | Finish(i: nat, failed: bool) | Release(i: nat)
    // The writing goroutine's steps
    | Receive | RangeEnd | Store | Tear(n: nat) | Refuse | SetErr | Signal | End

  /** The underlying writer and the scheduler decide the rest. */
  predicate Chosen(a: Action) {
    a.BeginWrite? || a.BeginClose?
  }

  /** The next chunk of a hand-off. */
  function Cut(cfg: Config, rest: Bytes): Bytes {
    if |rest| > cfg.chunkSize then rest[..cfg.chunkSize] else rest
  }

  /** newChunkWriter.Write, with the chunks it starts: all of p, in chunks that are full but for the last. */
  method SplitChunks(cfg: Config, p: Bytes) returns (n: nat, chunks: seq<Bytes>)
    requires cfg.chunkSize >= 1
    ensures n == |p| && Flatten(chunks) == p
    ensures forall i :: 0 <= i < |chunks| ==> 0 < |chunks[i]| <= cfg.chunkSize
    ensures forall i :: 0 <= i < |chunks| - 1 ==> |chunks[i]| == cfg.chunkSize
  {
    n, chunks := |p|, [];
    var rest := p;
    while |rest| > 0
      invariant Flatten(chunks) + rest == p
      invariant forall i :: 0 <= i < |chunks| ==> 0 < |chunks[i]| <= cfg.chunkSize
      invariant forall i :: 0 <= i < |chunks| && (i < |chunks| - 1 || rest != []) ==> |chunks[i]| == cfg.chunkSize
      decreases |rest|
    {
      var chunk := Cut(cfg, rest);
      assert (chunks + [chunk])[..|chunks|] == chunks;
      AppendAssoc(Flatten(chunks), chunk, rest[|chunk|..]);
      assert chunk + rest[|chunk|..] == rest;
      rest, chunks := rest[|chunk|..], chunks + [chunk];
    }
  }

  predicate Ready(s: State, i: nat) {
    i < |s.work| && i < |s.parts| && !s.work[i].Compressing?
  }

  predicate Enabled(cfg: Config, z: Bytes -> Bytes, s: State, a: Action) {
    match a
    case BeginWrite(p) => s.client.Idle? && !s.closed  // the model leaves out writes after Close
    case BeginClose => s.client.Idle?
    // bufio decides how much it passes on; Flush passes on everything.
    case HandOff(n) => s.client.Submitting? && s.client.rest == [] && 0 < n <= |s.pending| && (s.client.closing ==> n == |s.pending|)
    case EndWrite => s.client == Submitting([], false)
    case Acquire => s.client.Submitting? && s.client.rest != [] && s.sem < cfg.parallel
    case Send => s.client.Sending? && |s.queue| < cfg.parallel + 1
    case Discard => s.client.Sending? && s.signalled
    case CloseQueue => s.client == Submitting([], true) && s.pending == []
    case FinishClose => s.client.Waiting? && s.goroutine.Ended?
    case Finish(i, _) => i < |s.work| && s.work[i].Compressing?
    case Release(i) => i < |s.work| && s.work[i].Done? && s.sem > 0
    case Receive => s.goroutine.Receiving? && s.queue != []
    case RangeEnd => s.goroutine.Receiving? && s.queue == [] && s.queueClosed
    case Store => s.goroutine.Awaiting? && Ready(s, s.goroutine.id) && !s.work[s.goroutine.id].failed
    case Tear(n) => s.goroutine.Awaiting? && Ready(s, s.goroutine.id) && !s.work[s.goroutine.id].failed && n <= |z(s.parts[s.goroutine.id])|
    case Refuse => s.goroutine.Awaiting? && Ready(s, s.goroutine.id) && s.work[s.goroutine.id].failed
    case SetErr => s.goroutine.Failing?
    case Signal => s.goroutine.Signalling?
    case End => s.goroutine.Ending?
  }

  function Step(cfg: Config, z: Bytes -> Bytes, s: State, a: Action): State
    requires Enabled(cfg, z, s, a)
  {
    match a
    case BeginWrite(p) =>
      s.(input := s.input + p, pending := s.pending + p, client := Submitting([], false),
         goroutine := if s.goroutine.NotStarted? then Receiving else s.goroutine)
    case BeginClose => Closing(s)
    case HandOff(n) => s.(client := Submitting(s.pending[..n], s.client.closing), pending := s.pending[n..])
    case EndWrite => s.(client := Idle)
    case Acquire =>
      var part := Cut(cfg, s.client.rest);
      s.(sem := s.sem + 1, parts := s.parts + [part], work := s.work + [Compressing],
         client := Sending(|s.parts|, s.client.rest[|part|..], s.client.closing))
    case Send => s.(queue := s.queue + [s.client.id], client := Submitting(s.client.rest, s.client.closing))
    case Discard => s.(client := Submitting(s.client.rest, s.client.closing))
    case CloseQueue => s.(queueClosed := true, client := Waiting)
    case FinishClose => s.(client := Idle, firstClose := if s.err then Failed else Nil)
    case Finish(i, failed) => s.(work := s.work[i := Done(failed)])
    case Release(i) => s.(work := s.work[i := Released(s.work[i].failed)], sem := s.sem - 1)
    case Receive => s.(goroutine := Awaiting(s.queue[0]), queue := s.queue[1..])
    case RangeEnd => s.(goroutine := Ended)
    case Store => s.(out := s.out + z(s.parts[s.goroutine.id]), written := s.written + 1, goroutine := Receiving)
    case Tear(n) =>
      var torn := z(s.parts[s.goroutine.id])[..n];
      s.(out := s.out + torn, torn := torn, goroutine := Failing)
    case Refuse => s.(goroutine := Failing)
    case SetErr => s.(err := true, goroutine := Signalling)
    case Signal => s.(signalled := true, goroutine := Ending)
    case End => s.(goroutine := Ended)
  }

  /** Close, up to the point where it returns at once or starts flushing. */
  function Closing(s: State): State {
    if s.closed then s
    else if s.goroutine.NotStarted? then s.(closed := true, firstClose := Nil)
    else if s.err then s.(closed := true, firstClose := Failed)
    else s.(closed := true, client := Submitting([], true))
  }

  // ---- Runs ----

  predicate Legal(cfg: Config, z: Bytes -> Bytes, s: State, run: seq<Action>)
    decreases run
  {
    run == [] || (Enabled(cfg, z, s, run[0]) && Legal(cfg, z, Step(cfg, z, s, run[0]), run[1..]))
  }

  function After(cfg: Config, z: Bytes -> Bytes, s: State, run: seq<Action>): State
    requires Legal(cfg, z, s, run)
    decreases run
  {
    if run == [] then s else After(cfg, z, Step(cfg, z, s, run[0]), run[1..])
  }

  // ---- Invariants ----

  function Rest(c: Client): Bytes {
    if c.Submitting? || c.Sending? then c.rest else []
  }

  /** Every byte passed to Write is in exactly one place, in order. */
  ghost predicate BytesOk(cfg: Config, s: State) {
    && BytesAre(cfg, s.input, s.parts, Rest(s.client), s.pending)
    && (s.client.Waiting? || s.queueClosed ==> s.pending == [])
  }

  ghost predicate BytesAre(cfg: Config, input: Bytes, parts: seq<Bytes>, rest: Bytes, pending: Bytes) {
    && input == Flatten(parts) + (rest + pending)
    && forall i :: 0 <= i < |parts| ==> 0 < |parts[i]| <= cfg.chunkSize
  }

  /** The compressions that hold a semaphore token. */
  function Holding(work: seq<Compression>): nat {
    if work == [] then 0 else Holding(work[..|work| - 1]) + if work[|work| - 1].Released? then 0 else 1
  }

  ghost predicate TokensOk(cfg: Config, s: State) {
    s.sem == Holding(s.work) && s.sem <= cfg.parallel && |s.work| == |s.parts|
  }

  /** The writing goroutine has run into an error. */
  predicate Broken(s: State) {
    s.goroutine.Failing? || s.goroutine.Signalling? || s.goroutine.Ending? || (s.goroutine.Ended? && s.err)
  }

  /** The error is set before it is signalled, and both before the goroutine ends. */
  ghost predicate ErrorOk(s: State) {
    if Broken(s) then s.err == !s.goroutine.Failing? && s.signalled == (s.goroutine.Ending? || s.goroutine.Ended?)
    else !s.err && !s.signalled
  }

  /** The compressed members of the parts, one after another. */
  function Members(z: Bytes -> Bytes, parts: seq<Bytes>): Bytes {
    if parts == [] then [] else Members(z, parts[..|parts| - 1]) + z(parts[|parts| - 1])
  }

  /** The output is the first chunks, compressed, and a part of the next one only after an error. */
  ghost predicate OutputOk(z: Bytes -> Bytes, s: State) {
    && s.written <= |s.parts|
    && s.out == Members(z, s.parts[..s.written]) + s.torn
    && (s.torn != [] ==> Broken(s) && s.written < |s.parts| && s.torn <= z(s.parts[s.written]))
  }

  function Taken(s: State): nat {
    if s.goroutine.Awaiting? then s.written + 1 else s.written
  }

  /** Without an error the chunks are queued and taken in the order they were started, and none is lost. */
  ghost predicate OrderOk(cfg: Config, s: State) {
    && |s.queue| <= cfg.parallel + 1
    && (s.client.Sending? ==> s.client.id + 1 == |s.parts|)
    && (!Broken(s) ==>
      && |s.parts| == Taken(s) + |s.queue| + (if s.client.Sending? then 1 else 0)
      && (forall i :: 0 <= i < |s.queue| ==> s.queue[i] == Taken(s) + i)
      && (s.goroutine.Awaiting? ==> s.goroutine.id == s.written)
      && (s.goroutine.Ended? ==> s.queue == []))
  }

  /** The calls: Write comes before Close, and what the first Close returned was true. */
  ghost predicate CallsOk(s: State) {
    && (s.goroutine.NotStarted? ==> s.client.Idle? && s.input == [])
    && (s.queueClosed ==> s.closed && (s.client.Waiting? || s.client.Idle?))
    && (s.client.Waiting? || (s.goroutine.Ended? && !s.err) ==> s.queueClosed)
    && (s.client.Submitting? || s.client.Sending? ==> s.client.closing == s.closed)
    && (s.firstClose.NotYet? <==> !s.closed || !s.client.Idle?)
    && (s.firstClose.Failed? ==> s.err)
    && (s.firstClose.Nil? ==> !s.err && (s.goroutine.NotStarted? || s.goroutine.Ended?))
  }

  ghost predicate Inv(cfg: Config, z: Bytes -> Bytes, s: State) {
    && BytesOk(cfg, s)
    && TokensOk(cfg, s)
    && ErrorOk(s)
    && OutputOk(z, s)
    && OrderOk(cfg, s)
    && CallsOk(s)
  }

  // ---- Each piece is kept by each step ----

  /** Nothing that concerns the bytes has changed. */
  predicate SameBytes(s: State, s': State) {
    && s'.input == s.input && s'.parts == s.parts && s'.pending == s.pending && Rest(s'.client) == Rest(s.client)
    && (s'.client.Waiting? || s'.queueClosed ==> s.pending == [])
  }

  predicate MovesBytes(a: Action) {
    a.BeginWrite? || a.HandOff? || a.Acquire?
  }

  lemma CallerKeepsBytes(cfg: Config, z: Bytes -> Bytes, s: State, a: Action)
    requires BytesOk(cfg, s) && CallsOk(s) && Enabled(cfg, z, s, a) && IsCaller(a) && !MovesBytes(a)
    ensures SameBytes(s, Step(cfg, z, s, a))
  {
  }

  lemma OthersKeepBytes(cfg: Config, z: Bytes -> Bytes, s: State, a: Action)
    requires BytesOk(cfg, s) && Enabled(cfg, z, s, a) && !IsCaller(a)
    ensures SameBytes(s, Step(cfg, z, s, a))
  {
  }

  lemma BytesKept(cfg: Config, z: Bytes -> Bytes, s: State, a: Action)
    requires cfg.chunkSize >= 1 && BytesOk(cfg, s) && CallsOk(s) && Enabled(cfg, z, s, a)
    ensures BytesOk(cfg, Step(cfg, z, s, a))
  {
    match a
    case BeginWrite(p) => BeginWriteKeepsBytes(cfg, z, s, p);
    case HandOff(n) => HandOffKeepsBytes(cfg, z, s, n);
    case Acquire => AcquireKeepsBytes(cfg, z, s);
    case _ =>
      if IsCaller(a) {
        CallerKeepsBytes(cfg, z, s, a);
      } else {
        OthersKeepBytes(cfg, z, s, a);
      }
  }

  lemma BeginWriteKeepsBytes(cfg: Config, z: Bytes -> Bytes, s: State, p: Bytes)
    requires BytesOk(cfg, s) && CallsOk(s) && Enabled(cfg, z, s, BeginWrite(p))
    ensures BytesOk(cfg, Step(cfg, z, s, BeginWrite(p)))
  {
    AppendAssoc(Flatten(s.parts), s.pending, p);
    assert [] + s.pending == s.pending && [] + (s.pending + p) == s.pending + p;
  }

  lemma HandOffKeepsBytes(cfg: Config, z: Bytes -> Bytes, s: State, n: nat)
    requires BytesOk(cfg, s) && CallsOk(s) && Enabled(cfg, z, s, HandOff(n))
    ensures BytesOk(cfg, Step(cfg, z, s, HandOff(n)))
  {
    assert s.pending[..n] + s.pending[n..] == s.pending == [] + s.pending;
  }

  lemma CutIs(cfg: Config, rest: Bytes)
    requires cfg.chunkSize >= 1 && rest != []
    ensures var part := Cut(cfg, rest); 0 < |part| <= cfg.chunkSize && |part| <= |rest| && part + rest[|part|..] == rest
  {
  }

  lemma CutKeepsBytes(cfg: Config, input: Bytes, parts: seq<Bytes>, rest: Bytes, pending: Bytes)
    requires cfg.chunkSize >= 1 && rest != [] && BytesAre(cfg, input, parts, rest, pending)
    ensures var part := Cut(cfg, rest); |part| <= |rest| && BytesAre(cfg, input, parts + [part], rest[|part|..], pending)
  {
    var part := Cut(cfg, rest);
    CutIs(cfg, rest);
    FlattenMore(parts, part);
    Regroup(Flatten(parts), part, rest[|part|..], pending);
  }

  lemma AcquireKeepsBytes(cfg: Config, z: Bytes -> Bytes, s: State)
    requires cfg.chunkSize >= 1 && BytesOk(cfg, s) && !s.queueClosed && Enabled(cfg, z, s, Acquire)
    ensures BytesOk(cfg, Step(cfg, z, s, Acquire))
  {
    CutKeepsBytes(cfg, s.input, s.parts, s.client.rest, s.pending);
  }

  lemma {:induction false} HoldingUpdate(work: seq<Compression>, i: nat, c: Compression)
    requires i < |work|
    ensures Holding(work[i := c]) == Holding(work) - (if work[i].Released? then 0 else 1) + (if c.Released? then 0 else 1)
  {
    var n := |work| - 1;
    if i == n {
      assert work[i := c][..n] == work[..n];
    } else {
      HoldingUpdate(work[..n], i, c);
      assert work[i := c][..n] == work[..n][i := c];
    }
  }

  lemma TokensKept(cfg: Config, z: Bytes -> Bytes, s: State, a: Action)
    requires TokensOk(cfg, s) && Enabled(cfg, z, s, a)
    ensures TokensOk(cfg, Step(cfg, z, s, a))
  {
    match a
    case Acquire => HoldingMore(s.work);
    case Finish(i, failed) => HoldingUpdate(s.work, i, Done(failed));
    case Release(i) => HoldingUpdate(s.work, i, Released(s.work[i].failed));
    case _ => OthersKeepTokens(cfg, z, s, a);
  }

  lemma OthersKeepTokens(cfg: Config, z: Bytes -> Bytes, s: State, a: Action)
    requires Enabled(cfg, z, s, a) && !a.Acquire? && !a.Finish? && !a.Release?
    ensures var s' := Step(cfg, z, s, a); s'.work == s.work && s'.sem == s.sem && s'.parts == s.parts
  {
  }

  lemma HoldingMore(work: seq<Compression>)
    ensures Holding(work + [Compressing]) == Holding(work) + 1
  {
    assert (work + [Compressing])[..|work|] == work;
  }

  lemma MembersMore(z: Bytes -> Bytes, parts: seq<Bytes>, n: nat)
    requires n < |parts|
    ensures Members(z, parts[..n + 1]) == Members(z, parts[..n]) + z(parts[n])
  {
    assert parts[..n + 1][..n] == parts[..n];
  }

  predicate MovesOutput(a: Action) {
    a.Acquire? || a.Store? || a.Tear?
  }

  lemma OthersKeepOutput(cfg: Config, z: Bytes -> Bytes, s: State, a: Action)
    requires OutputOk(z, s) && ErrorOk(s) && Enabled(cfg, z, s, a) && !MovesOutput(a)
    ensures var s' := Step(cfg, z, s, a);
            && s'.written == s.written && s'.parts == s.parts && s'.out == s.out && s'.torn == s.torn
            && (Broken(s) ==> Broken(s'))
  {
  }

  lemma OutputKept(cfg: Config, z: Bytes -> Bytes, s: State, a: Action)
    requires OutputOk(z, s) && OrderOk(cfg, s) && ErrorOk(s) && Enabled(cfg, z, s, a)
    ensures OutputOk(z, Step(cfg, z, s, a))
  {
    match a
    case Acquire => AcquireKeepsOutput(cfg, z, s);
    case Store => StoreKeepsOutput(cfg, z, s);
    case Tear(n) => TearKeepsOutput(cfg, z, s, n);
    case _ => OthersKeepOutput(cfg, z, s, a);
  }

  lemma AcquireKeepsOutput(cfg: Config, z: Bytes -> Bytes, s: State)
    requires OutputOk(z, s) && Enabled(cfg, z, s, Acquire)
    ensures OutputOk(z, Step(cfg, z, s, Acquire))
  {
    var parts' := Step(cfg, z, s, Acquire).parts;
    assert parts'[..s.written] == s.parts[..s.written];
  }

  lemma StoreKeepsOutput(cfg: Config, z: Bytes -> Bytes, s: State)
    requires OutputOk(z, s) && OrderOk(cfg, s) && Enabled(cfg, z, s, Store)
    ensures OutputOk(z, Step(cfg, z, s, Store))
  {
    MembersMore(z, s.parts, s.written);
    assert s.torn == [] && s.out == Members(z, s.parts[..s.written]);
  }

  lemma TearKeepsOutput(cfg: Config, z: Bytes -> Bytes, s: State, n: nat)
    requires OutputOk(z, s) && OrderOk(cfg, s) && Enabled(cfg, z, s, Tear(n))
    ensures OutputOk(z, Step(cfg, z, s, Tear(n)))
  {
    assert s.torn == [] && s.out == Members(z, s.parts[..s.written]);
  }

  lemma OrderKept(cfg: Config, z: Bytes -> Bytes, s: State, a: Action)
    requires OrderOk(cfg, s) && ErrorOk(s) && CallsOk(s) && Enabled(cfg, z, s, a)
    ensures OrderOk(cfg, Step(cfg, z, s, a))
  {
    if a.Receive? {
      ReceiveKeepsOrder(cfg, z, s);
    } else if a.Send? {
      SendKeepsOrder(cfg, z, s);
    } else if IsCaller(a) {
      CallerKeepsOrder(cfg, z, s, a);
    } else {
      OthersKeepOrder(cfg, z, s, a);
    }
  }

  lemma CallerKeepsOrder(cfg: Config, z: Bytes -> Bytes, s: State, a: Action)
    requires OrderOk(cfg, s) && ErrorOk(s) && CallsOk(s) && Enabled(cfg, z, s, a) && IsCaller(a) && !a.Send?
    ensures OrderOk(cfg, Step(cfg, z, s, a))
  {
  }

  lemma OthersKeepOrder(cfg: Config, z: Bytes -> Bytes, s: State, a: Action)
    requires OrderOk(cfg, s) && ErrorOk(s) && Enabled(cfg, z, s, a) && !IsCaller(a) && !a.Receive?
    ensures OrderOk(cfg, Step(cfg, z, s, a))
  {
  }

  lemma ReceiveKeepsOrder(cfg: Config, z: Bytes -> Bytes, s: State)
    requires OrderOk(cfg, s) && Enabled(cfg, z, s, Receive)
    ensures OrderOk(cfg, Step(cfg, z, s, Receive))
  {
    var s' := Step(cfg, z, s, Receive);
    assert forall i :: 0 <= i < |s'.queue| ==> s'.queue[i] == s.queue[i + 1];
  }

  lemma SendKeepsOrder(cfg: Config, z: Bytes -> Bytes, s: State)
    requires OrderOk(cfg, s) && CallsOk(s) && Enabled(cfg, z, s, Send)
    ensures OrderOk(cfg, Step(cfg, z, s, Send))
  {
  }

  lemma ErrorKept(cfg: Config, z: Bytes -> Bytes, s: State, a: Action)
    requires ErrorOk(s) && CallsOk(s) && Enabled(cfg, z, s, a)
    ensures ErrorOk(Step(cfg, z, s, a))
  {
  }

  /** The steps of the caller. */
  predicate IsCaller(a: Action) {
    Chosen(a) || a.HandOff? || a.EndWrite? || a.Acquire? || a.Send? || a.Discard? || a.CloseQueue? || a.FinishClose?
  }

  lemma CallerKeepsCalls(cfg: Config, z: Bytes -> Bytes, s: State, a: Action)
    requires CallsOk(s) && ErrorOk(s) && Enabled(cfg, z, s, a) && IsCaller(a)
    ensures CallsOk(Step(cfg, z, s, a))
  {
  }

  lemma OthersKeepCalls(cfg: Config, z: Bytes -> Bytes, s: State, a: Action)
    requires CallsOk(s) && ErrorOk(s) && Enabled(cfg, z, s, a) && !IsCaller(a)
    ensures CallsOk(Step(cfg, z, s, a))
  {
  }

  /** Every interleaving keeps the invariant. */
  lemma {:induction false} RunKeepsInv(cfg: Config, z: Bytes -> Bytes, s: State, run: seq<Action>)
    requires cfg.chunkSize >= 1 && Inv(cfg, z, s) && Legal(cfg, z, s, run)
    ensures Inv(cfg, z, After(cfg, z, s, run))
    decreases run
  {
    if run != [] {
      BytesKept(cfg, z, s, run[0]);
      TokensKept(cfg, z, s, run[0]);
      OutputKept(cfg, z, s, run[0]);
      OrderKept(cfg, z, s, run[0]);
      ErrorKept(cfg, z, s, run[0]);
      if IsCaller(run[0]) {
        CallerKeepsCalls(cfg, z, s, run[0]);
      } else {
        OthersKeepCalls(cfg, z, s, run[0]);
      }
      RunKeepsInv(cfg, z, Step(cfg, z, s, run[0]), run[1..]);
    }
  }

  ghost predicate Reachable(cfg: Config, z: Bytes -> Bytes, s: State) {
    exists run :: Legal(cfg, z, START, run) && After(cfg, z, START, run) == s
  }

  lemma ReachableInv(cfg: Config, z: Bytes -> Bytes, s: State)
    requires cfg.chunkSize >= 1 && Reachable(cfg, z, s)
    ensures Inv(cfg, z, s)
  {
    var run :| Legal(cfg, z, START, run) && After(cfg, z, START, run) == s;
    StartIsOk(cfg, z);
    RunKeepsInv(cfg, z, START, run);
  }

  lemma StartIsOk(cfg: Config, z: Bytes -> Bytes)
    ensures Inv(cfg, z, START)
  {
  }

  // ---- Safety ----

  /** A gzip file is a series of members, decompressed one after another (section 2.2 of RFC 1952). */
  ghost predicate Inflates(z: Bytes -> Bytes, unzip: Bytes -> Bytes) {
    unzip([]) == [] && forall p, rest :: unzip(z(p) + rest) == p + unzip(rest)
  }

  lemma {:induction false} UnzipMembers(z: Bytes -> Bytes, unzip: Bytes -> Bytes, parts: seq<Bytes>, rest: Bytes)
    requires Inflates(z, unzip)
    ensures unzip(Members(z, parts) + rest) == Flatten(parts) + unzip(rest)
  {
    if parts == [] {
      assert Members(z, parts) + rest == rest;
    } else {
      var init, last := parts[..|parts| - 1], parts[|parts| - 1];
      AppendAssoc(Members(z, init), z(last), rest);
      UnzipMembers(z, unzip, init, z(last) + rest);
      AppendAssoc(Flatten(init), last, unzip(rest));
    }
  }

  /**
   In every interleaving the output is the compressed chunks of an initial run of the input, in order,
   followed by a piece of the next one only when writing it failed.
   */
  lemma OutputIsOrdered(cfg: Config, z: Bytes -> Bytes, s: State)
    requires cfg.chunkSize >= 1 && Reachable(cfg, z, s)
    ensures s.written <= |s.parts| && Flatten(s.parts[..s.written]) <= s.input
    ensures s.out == Members(z, s.parts[..s.written]) + s.torn
    ensures s.torn != [] ==> Broken(s) && s.written < |s.parts| && s.torn <= z(s.parts[s.written])
  {
    ReachableInv(cfg, z, s);
    FlattenAppend(s.parts[..s.written], s.parts[s.written..]);
    assert s.parts == s.parts[..s.written] + s.parts[s.written..];
    AppendAssoc(Flatten(s.parts[..s.written]), Flatten(s.parts[s.written..]), Rest(s.client) + s.pending);
  }

  lemma NilIsWhole(cfg: Config, z: Bytes -> Bytes, s: State)
    requires Inv(cfg, z, s) && s.firstClose.Nil?
    ensures s.out == Members(z, s.parts) && Flatten(s.parts) == s.input
  {
    assert s.goroutine.NotStarted? ==> s.parts == [];
    assert s.written == |s.parts| && s.parts[..s.written] == s.parts;
  }

  /** The first Close returns nil exactly when there was no error, and then the output decompresses to the input. */
  lemma NilMeansAllIsWritten(cfg: Config, z: Bytes -> Bytes, unzip: Bytes -> Bytes, s: State)
    requires cfg.chunkSize >= 1 && Reachable(cfg, z, s) && Inflates(z, unzip)
    requires !s.firstClose.NotYet?
    ensures s.firstClose.Nil? <==> !s.err
    ensures s.firstClose.Nil? ==> unzip(s.out) == s.input
  {
    ReachableInv(cfg, z, s);
    if s.firstClose.Nil? {
      NilIsWhole(cfg, z, s);
      UnzipMembers(z, unzip, s.parts, []);
      assert Members(z, s.parts) + [] == Members(z, s.parts);
    }
  }

  // ---- Progress ----

  /** The compressions at work. */
  function Running(work: seq<Compression>): nat {
    if work == [] then 0 else Running(work[..|work| - 1]) + if work[|work| - 1].Compressing? then 1 else 0
  }

  lemma {:induction false} RunningHold(work: seq<Compression>)
    ensures Running(work) <= Holding(work)
  {
    if work != [] {
      RunningHold(work[..|work| - 1]);
    }
  }

  lemma BoundedParallelism(cfg: Config, z: Bytes -> Bytes, s: State)
    requires cfg.chunkSize >= 1 && Reachable(cfg, z, s)
    ensures Running(s.work) <= cfg.parallel && |s.queue| <= cfg.parallel + 1
  {
    ReachableInv(cfg, z, s);
    RunningHold(s.work);
  }

  lemma {:induction false} SomeHolder(work: seq<Compression>) returns (i: nat)
    requires Holding(work) > 0
    ensures i < |work| && !work[i].Released?
  {
    i := |work| - 1;
    if work[i].Released? {
      i := SomeHolder(work[..i]);
    }
  }

  /** A compression that holds a token can move. */
  function Move(s: State, i: nat): Action
    requires i < |s.work|
  {
    if s.work[i].Compressing? then Finish(i, false) else Release(i)
  }

  lemma {:induction false} HolderMoves(cfg: Config, z: Bytes -> Bytes, s: State, i: nat)
    requires TokensOk(cfg, s) && i < |s.work| && !s.work[i].Released?
    ensures Enabled(cfg, z, s, Move(s, i))
  {
    HoldingUpdate(s.work, i, Released(false));
  }

  /** The writing goroutine moves, unless it waits for the caller, for a compression, or has ended. */
  function WriterMove(s: State): Action {
    match s.goroutine
    case Awaiting(id) => if !Ready(s, id) then Finish(id, false) else if s.work[id].failed then Refuse else Store
    case Receiving => if s.queue == [] then RangeEnd else Receive
    case Failing => SetErr
    case Signalling => Signal
    case _ => End
  }

  lemma WriterMoves(cfg: Config, z: Bytes -> Bytes, s: State)
    requires Inv(cfg, z, s) && !s.goroutine.NotStarted? && !s.goroutine.Ended?
    requires s.goroutine.Receiving? ==> s.queue != [] || s.queueClosed
    ensures Enabled(cfg, z, s, WriterMove(s))
  {
  }

  /** While a call of Write or Close has not returned, something can move that nobody has to ask for. */
  lemma NeverStuck(cfg: Config, z: Bytes -> Bytes, s: State) returns (a: Action)
    requires cfg.chunkSize >= 1 && cfg.parallel >= 1 && Reachable(cfg, z, s) && !s.client.Idle?
    ensures Enabled(cfg, z, s, a) && !Chosen(a)
  {
    ReachableInv(cfg, z, s);
    match s.client
    case Submitting(rest, closing) =>
      if rest == [] {
        a := if !closing then EndWrite else if s.pending == [] then CloseQueue else HandOff(|s.pending|);
      } else if s.sem < cfg.parallel {
        a := Acquire;
      } else {
        var i := SomeHolder(s.work);
        HolderMoves(cfg, z, s, i);
        a := Move(s, i);
      }
    case Sending(_, _, _) =>
      if |s.queue| < cfg.parallel + 1 {
        a := Send;
      } else if s.signalled {
        a := Discard;
      } else {
        WriterMoves(cfg, z, s);
        a := WriterMove(s);
      }
    case Waiting =>
      if s.goroutine.Ended? {
        a := FinishClose;
      } else {
        WriterMoves(cfg, z, s);
        a := WriterMove(s);
      }
  }

  function WorkLeft(work: seq<Compression>): nat {
    if work == [] then 0
    else WorkLeft(work[..|work| - 1]) + match work[|work| - 1] case Compressing => 2 case Done(_) => 1 case Released(_) => 0
  }

  function ClientLeft(c: Client): nat {
    match c
    case Idle => 0
    case Submitting(rest, closing) => 6 * |rest| + if closing then 3 else 1
    case Sending(_, rest, closing) => 6 * |rest| + 3 + if closing then 3 else 1
    case Waiting => 2
  }

  function WriterLeft(g: Goroutine): nat {
    match g
    case NotStarted => 0
    case Receiving => 4
    case Awaiting(_) => 5
    case Failing => 3
    case Signalling => 2
    case Ending => 1
    case Ended => 0
  }

  /** How many steps are left, at most, before the machine rests unless it is called again. */
  function StepsLeft(s: State): nat {
    7 * |s.pending| + WorkLeft(s.work) + MovesLeft(s)
  }

  lemma {:induction false} WorkShrinks(work: seq<Compression>, i: nat, c: Compression)
    requires i < |work|
    requires (work[i].Compressing? && c.Done?) || (work[i].Done? && c.Released?)
    ensures WorkLeft(work[i := c]) + 1 == WorkLeft(work)
  {
    var n := |work| - 1;
    if i == n {
      assert work[i := c][..n] == work[..n];
    } else {
      WorkShrinks(work[..n], i, c);
      assert work[i := c][..n] == work[..n][i := c];
    }
  }

  lemma StepsShrink(cfg: Config, z: Bytes -> Bytes, s: State, a: Action)
    requires cfg.chunkSize >= 1 && Enabled(cfg, z, s, a) && !Chosen(a)
    ensures StepsLeft(Step(cfg, z, s, a)) < StepsLeft(s)
  {
    match a
    case Finish(i, failed) => WorkShrinks(s.work, i, Done(failed));
    case Release(i) => WorkShrinks(s.work, i, Released(s.work[i].failed));
    case Acquire => AcquireShrinks(cfg, z, s);
    case HandOff(n) => HandOffShrinks(cfg, z, s, n);
    case _ =>
      if IsCaller(a) {
        CallerShrinks(cfg, z, s, a);
      } else {
        WriterShrinks(cfg, z, s, a);
      }
  }

  lemma WorkMore(work: seq<Compression>)
    ensures WorkLeft(work + [Compressing]) == WorkLeft(work) + 2
  {
    assert (work + [Compressing])[..|work|] == work;
  }

  /** What is left apart from buffered bytes and compressions. */
  function MovesLeft(s: State): nat {
    ClientLeft(s.client) + 2 * |s.queue| + WriterLeft(s.goroutine)
  }

  lemma CallerShrinks(cfg: Config, z: Bytes -> Bytes, s: State, a: Action)
    requires Enabled(cfg, z, s, a) && IsCaller(a) && !Chosen(a) && !a.Acquire? && !a.HandOff?
    ensures var s' := Step(cfg, z, s, a); s'.work == s.work && s'.pending == s.pending && MovesLeft(s') < MovesLeft(s)
  {
  }

  lemma WriterShrinks(cfg: Config, z: Bytes -> Bytes, s: State, a: Action)
    requires Enabled(cfg, z, s, a) && !IsCaller(a) && !a.Finish? && !a.Release?
    ensures var s' := Step(cfg, z, s, a); s'.work == s.work && s'.pending == s.pending && MovesLeft(s') < MovesLeft(s)
  {
  }

  lemma HandOffShrinks(cfg: Config, z: Bytes -> Bytes, s: State, n: nat)
    requires Enabled(cfg, z, s, HandOff(n))
    ensures StepsLeft(Step(cfg, z, s, HandOff(n))) < StepsLeft(s)
  {
  }

  lemma AcquireShrinks(cfg: Config, z: Bytes -> Bytes, s: State)
    requires cfg.chunkSize >= 1 && Enabled(cfg, z, s, Acquire)
    ensures StepsLeft(Step(cfg, z, s, Acquire)) < StepsLeft(s)
  {
    CutIs(cfg, s.client.rest);
    WorkMore(s.work);
  }

  /**
   Write and Close return under every schedule: without further calls no run is longer than StepsLeft, and one
   that cannot go on has brought the caller back.
   */
  lemma {:induction false} CallsReturn(cfg: Config, z: Bytes -> Bytes, s: State, run: seq<Action>)
    requires cfg.chunkSize >= 1 && cfg.parallel >= 1 && Reachable(cfg, z, s)
    requires Legal(cfg, z, s, run) && forall a | a in run :: !Chosen(a)
    ensures |run| <= StepsLeft(s)
    ensures After(cfg, z, s, run).client.Idle? || exists a :: Enabled(cfg, z, After(cfg, z, s, run), a) && !Chosen(a)
    decreases run
  {
    if run == [] {
      if !s.client.Idle? {
        var a := NeverStuck(cfg, z, s);
      }
    } else {
      assert run[0] in run;
      StepsShrink(cfg, z, s, run[0]);
      StepIsReachable(cfg, z, s, run[0]);
      CallsReturn(cfg, z, Step(cfg, z, s, run[0]), run[1..]);
    }
  }

  lemma StepIsReachable(cfg: Config, z: Bytes -> Bytes, s: State, a: Action)
    requires Reachable(cfg, z, s) && Enabled(cfg, z, s, a)
    ensures Reachable(cfg, z, Step(cfg, z, s, a))
  {
    var run :| Legal(cfg, z, START, run) && After(cfg, z, START, run) == s;
    OneMore(cfg, z, START, run, a);
  }

  lemma {:induction false} OneMore(cfg: Config, z: Bytes -> Bytes, s: State, run: seq<Action>, a: Action)
    requires Legal(cfg, z, s, run) && Enabled(cfg, z, After(cfg, z, s, run), a)
    ensures Legal(cfg, z, s, run + [a]) && After(cfg, z, s, run + [a]) == Step(cfg, z, After(cfg, z, s, run), a)
    decreases run
  {
    if run == [] {
      assert (run + [a])[1..] == [];
    } else {
      OneMore(cfg, z, Step(cfg, z, s, run[0]), run[1..], a);
      assert (run + [a])[1..] == run[1..] + [a];
    }
  }

  /** The caller never sends on the queue once it is closed. */
  lemma NoSendOnClosedQueue(cfg: Config, z: Bytes -> Bytes, s: State)
    requires cfg.chunkSize >= 1 && Reachable(cfg, z, s) && s.client.Sending?
    ensures !s.queueClosed
  {
    ReachableInv(cfg, z, s);
  }

  /**
   What Close does at once: a second one returns without doing anything, one before any Write returns nil, and one after an
   error returns the error without flushing.
   */
  lemma CloseAtOnce(cfg: Config, z: Bytes -> Bytes, s: State)
    requires s.client.Idle?
    ensures var t := Step(cfg, z, s, BeginClose);
            && t.closed && t.out == s.out && t.pending == s.pending
            && (s.closed ==> t == s)
            && (!s.closed && s.goroutine.NotStarted? ==> t.client.Idle? && t.firstClose.Nil?)
            && (!s.closed && !s.goroutine.NotStarted? && s.err ==> t.client.Idle? && t.firstClose.Failed?)
            && (!s.closed && !s.goroutine.NotStarted? && !s.err ==> t.client == Submitting([], true))
  {
  }
}
