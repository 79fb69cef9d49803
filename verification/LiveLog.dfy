/** A log with one writer and many readers, each of which yields the whole log (livelog/livelog.go). */
module LiveLog {
  import opened Basics

  const MAX_BUFFER_SIZE := 0x20_0000

  /** "\n\n... log truncated ..." */
  const TRUNCATION_MESSAGE: Bytes := [10, 10, 46, 46, 46, 32, 108, 111, 103, 32, 116, 114, 117, 110, 99, 97, 116, 101, 100, 32, 46, 46, 46]

  const MAX_USER_SIZE := MAX_BUFFER_SIZE - |TRUNCATION_MESSAGE|

  /** What the log shows of everything that was ever written to it. */
  function Shown(all: Bytes): Bytes {
    if |all| <= MAX_USER_SIZE then all else all[..MAX_USER_SIZE] + TRUNCATION_MESSAGE
  }

  /** What the log shows is never taken back, and never too long. */
  lemma ShownGrows(all: Bytes, more: Bytes)
    ensures Shown(all) <= Shown(all + more)
    ensures |Shown(all)| <= MAX_BUFFER_SIZE
    ensures |Shown(all)| == MAX_BUFFER_SIZE <==> |all| > MAX_USER_SIZE
  {
    if |all| > MAX_USER_SIZE {
      assert (all + more)[..MAX_USER_SIZE] == all[..MAX_USER_SIZE];
    }
  }

  /** What Write makes of the buffer. */
  function Appended(buf: Bytes, b2: Bytes): Bytes
    requires |buf| <= MAX_USER_SIZE || |buf| == MAX_BUFFER_SIZE
  {
    if |buf| == MAX_BUFFER_SIZE then buf
    else if |buf| + |b2| > MAX_USER_SIZE then buf + b2[..MAX_USER_SIZE - |buf|] + TRUNCATION_MESSAGE
    else buf + b2
  }

  /** However the writes are cut, the buffer depends on their concatenation only. */
  lemma AppendedShows(all: Bytes, b2: Bytes)
    ensures |Shown(all)| <= MAX_USER_SIZE || |Shown(all)| == MAX_BUFFER_SIZE
    ensures Appended(Shown(all), b2) == Shown(all + b2)
  {
    if |all| > MAX_USER_SIZE {
      assert (all + b2)[..MAX_USER_SIZE] == all[..MAX_USER_SIZE];
    } else if |all| + |b2| > MAX_USER_SIZE {
      assert (all + b2)[..MAX_USER_SIZE] == all + b2[..MAX_USER_SIZE - |all|];
    }
  }

  // ---- Reading ----

  datatype Result = Eof | Data(bytes: Bytes)

  /** The condition of the wait loop of Read. */
  predicate MustWait(buf: Bytes, eof: bool, read: nat, closed: bool) {
    |buf| == read && !eof && !closed
  }

  /** What Read returns once it need not wait, into a slice of length size. */
  function Returned(buf: Bytes, eof: bool, read: nat, closed: bool, size: nat): (r: Result)
    requires read <= |buf|
    ensures r.Data? ==> r.bytes <= buf[read..] && (|r.bytes| == size || (|r.bytes| < size && r.bytes == buf[read..]))
  {
    if (|buf| == read && eof) || closed then Eof
    else Data(buf[read..][..if size < |buf| - read then size else |buf| - read])
  }

  // ---- The objects, one call at a time ----

  class Buffer {
    var buf: Bytes
    var eof: bool
    var lastID: int
    ghost var all: Bytes

    constructor ()
      ensures Valid() && all == [] && !eof
    {
      buf, eof, lastID, all := [], false, 0, [];
    }

    ghost predicate Valid()
      reads this
    {
      buf == Shown(all)
    }

    method Write(b2: Bytes) returns (n: nat)
      requires Valid()
      modifies this`buf, this`all
      ensures Valid() && all == old(all) + b2 && n == |b2|
      ensures old(buf) <= buf
    {
      AppendedShows(all, b2);
      ShownGrows(all, b2);
      n := |b2|;
      var needTrunc, more := false, b2;
      if |buf| == MAX_BUFFER_SIZE {
        more := [];
      } else if |buf| + |b2| > MAX_USER_SIZE {
        more, needTrunc := b2[..MAX_USER_SIZE - |buf|], true;
      }
      buf := buf + more;
      if needTrunc {
        buf := buf + TRUNCATION_MESSAGE;
      }
      all := all + b2;
    }

    method Close()
      modifies this`eof
      ensures eof
    {
      eof := true;
    }

    method Reader() returns (r: LogReader)
      requires Valid()
      modifies this`lastID
      ensures fresh(r) && r.buf == this && r.id == lastID == old(lastID) + 1 && r.Valid() && r.got == [] && !r.closed
      ensures Valid()
    {
      lastID := lastID + 1;
      r := new LogReader(this, lastID);
    }
  }

  class LogReader {
    const buf: Buffer
    const id: int
    var read: nat
    var closed: bool
    ghost var got: Bytes  // everything Read has returned

    constructor (buf: Buffer, id: int)
      ensures this.buf == buf && this.id == id && read == 0 && !closed && got == []
    {
      this.buf, this.id, read, closed, got := buf, id, 0, false, [];
    }

    /** The reader has returned the first bytes of the log, in order and each of them once. */
    ghost predicate Valid()
      reads this, buf
    {
      read <= |buf.buf| && got == buf.buf[..read]
    }

    /** Read, as it runs when it need not wait any longer. */
    method Read(size: nat) returns (r: Result)
      requires Valid() && !MustWait(buf.buf, buf.eof, read, closed)
      modifies this`read, this`got
      ensures Valid() && r == Returned(buf.buf, buf.eof, old(read), closed, size)
      ensures r.Eof? ==> got == old(got) && (closed || (buf.eof && got == buf.buf))
      ensures r.Data? ==> !closed && got == old(got) + r.bytes && |r.bytes| <= size && (size > 0 ==> r.bytes != [])
    {
      if (|buf.buf| == read && buf.eof) || closed {
        return Eof;
      }
      var n := if size < |buf.buf| - read then size else |buf.buf| - read;
      r := Data(buf.buf[read..][..n]);
      assert buf.buf[..read + n] == buf.buf[..read] + r.bytes;
      read, got := read + n, got + r.bytes;
    }

    method Close()
      modifies this`closed
      ensures closed
    {
      closed := true;
    }

    /** Reading on until EOF, after the log was closed: the reader gets all of the log. */
    method ReadAll(size: nat) returns (data: Bytes)
      requires Valid() && buf.eof && !closed && size > 0
      modifies this`read, this`got
      ensures Valid() && got == old(got) + data == buf.buf
    {
      data := [];
      var r := Read(size);
      while r.Data?
        invariant Valid()
        invariant r.Data? ==> got == old(got) + (data + r.bytes)
        invariant r.Eof? ==> got == old(got) + data == buf.buf
        decreases |buf.buf| - read, r.Data?
      {
        data := data + r.bytes;
        r := Read(size);
      }
    }
  }

  // ---- All interleavings: calls take the lock in turn, and Read gives it up while it waits ----

  datatype ReaderState = ReaderState(read: nat, closed: bool, got: Bytes)

  /** A call of Read: asleep in Wait, woken (or not asleep yet) and about to look at the log, or over. */
  datatype Phase = Asleep | Awake | Over(result: Result)

  datatype Call = Call(reader: nat, size: nat, phase: Phase)

  datatype State = State(
    buf: Bytes, eof: bool, wake: bool,  // wake: the condition variable exists
    readers: seq<ReaderState>, calls: seq<Call>,
    all: Bytes)  // history: everything that was written

  const START := State([], false, false, [], [], [])

  datatype Action =
    | Write(p: Bytes) | Close | NewReader | CloseReader(i: nat)
    | BeginRead(i: nat, size: nat)
    | Look(c: nat)  // a call of Read takes the lock and looks at the log

  function WakeAll(s: State): seq<Call> {
    seq(|s.calls|, c requires 0 <= c < |s.calls| =>
      if s.wake && s.calls[c].phase.Asleep? then s.calls[c].(phase := Awake) else s.calls[c])
  }

  predicate Enabled(s: State, a: Action) {
    match a
    case Write(_) => |s.buf| <= MAX_USER_SIZE || |s.buf| == MAX_BUFFER_SIZE
    case CloseReader(i) => i < |s.readers|
    case BeginRead(i, _) => i < |s.readers|
    case Look(c) =>
      c < |s.calls| && s.calls[c].phase.Awake? && s.calls[c].reader < |s.readers| && s.readers[s.calls[c].reader].read <= |s.buf|
    case _ => true
  }

  function Step(s: State, a: Action): State
    requires Enabled(s, a)
  {
    match a
    case Write(p) => s.(buf := Appended(s.buf, p), all := s.all + p, calls := WakeAll(s))
    case Close => s.(eof := true, calls := WakeAll(s))
    case NewReader => s.(readers := s.readers + [ReaderState(0, false, [])])
    case CloseReader(i) => s.(readers := s.readers[i := s.readers[i].(closed := true)], calls := WakeAll(s))
    case BeginRead(i, size) => s.(calls := s.calls + [Call(i, size, Awake)])
    case Look(c) =>
      var call := s.calls[c];
      var r := s.readers[call.reader];
      if MustWait(s.buf, s.eof, r.read, r.closed) then s.(wake := true, calls := s.calls[c := call.(phase := Asleep)])
      else
        var result := Returned(s.buf, s.eof, r.read, r.closed, call.size);
        var n := if result.Data? then |result.bytes| else 0;
        s.(calls := s.calls[c := call.(phase := Over(result))],
           readers := if result.Data? then s.readers[call.reader := r.(read := r.read + n, got := r.got + result.bytes)] else s.readers)
  }

  predicate Legal(s: State, run: seq<Action>)
    decreases run
  {
    run == [] || (Enabled(s, run[0]) && Legal(Step(s, run[0]), run[1..]))
  }

  function After(s: State, run: seq<Action>): State
    requires Legal(s, run)
    decreases run
  {
    if run == [] then s else After(Step(s, run[0]), run[1..])
  }

  /** Each reader has returned the first bytes of the log. */
  ghost predicate ReadersOk(s: State) {
    forall i :: 0 <= i < |s.readers| ==> s.readers[i].read <= |s.buf| && s.readers[i].got == s.buf[..s.readers[i].read]
  }

  /** No wake-up is lost: a call sleeps only while it has nothing to return. */
  ghost predicate CallsOk(s: State) {
    forall c :: 0 <= c < |s.calls| ==>
      && s.calls[c].reader < |s.readers|
      && (s.calls[c].phase.Asleep? ==> s.wake && MustWait(s.buf, s.eof, s.readers[s.calls[c].reader].read, s.readers[s.calls[c].reader].closed))
  }

  ghost predicate Inv(s: State) {
    s.buf == Shown(s.all) && ReadersOk(s) && CallsOk(s)
  }

  lemma StepKeepsInv(s: State, a: Action)
    requires Inv(s) && Enabled(s, a)
    ensures Inv(Step(s, a)) && s.buf <= Step(s, a).buf
  {
    match a
    case Write(p) =>
      AppendedShows(s.all, p);
      ShownGrows(s.all, p);
    case Look(c) => LookKeepsInv(s, c);
    case _ =>
  }

  lemma LookKeepsInv(s: State, c: nat)
    requires Inv(s) && Enabled(s, Look(c))
    ensures Inv(Step(s, Look(c)))
  {
    var s', i := Step(s, Look(c)), s.calls[c].reader;
    var r, r' := s.readers[i], s'.readers[i];
    assert r'.got == s.buf[..r'.read];
  }

  /** Every run of every interleaving keeps the invariant, and the log is only ever appended to. */
  lemma {:induction false} RunKeepsInv(s: State, run: seq<Action>)
    requires Inv(s) && Legal(s, run)
    ensures Inv(After(s, run)) && s.buf <= After(s, run).buf
    decreases run
  {
    if run != [] {
      StepKeepsInv(s, run[0]);
      RunKeepsInv(Step(s, run[0]), run[1..]);
    }
  }

  /** A step that waited for its turn is always possible: no call can get stuck or fail. */
  lemma NeverRefused(run: seq<Action>, a: Action)
    requires Legal(START, run)
    ensures var s := After(START, run);
            Enabled(s, a) <==> match a
              case CloseReader(i) => i < |s.readers|
              case BeginRead(i, _) => i < |s.readers|
              case Look(c) => c < |s.calls| && s.calls[c].phase.Awake?
              case _ => true
  {
    RunKeepsInv(START, run);
    ShownGrows(After(START, run).all, []);
  }

  // ---- What readers see ----

  /** After any interleaving the log shows what was written, and every reader has returned the beginning of it. */
  lemma LogIsWhatWasWritten(run: seq<Action>, i: nat)
    requires Legal(START, run) && i < |After(START, run).readers|
    ensures var s := After(START, run); s.buf == Shown(s.all) && s.readers[i].got <= s.buf && |s.readers[i].got| == s.readers[i].read
  {
    RunKeepsInv(START, run);
  }

  /** Of two readers, at any time, one has returned the beginning of what the other has. */
  lemma ReadersAgree(run: seq<Action>, i: nat, j: nat)
    requires Legal(START, run) && i < |After(START, run).readers| && j < |After(START, run).readers|
    ensures var rs := After(START, run).readers; rs[i].got <= rs[j].got || rs[j].got <= rs[i].got
  {
    RunKeepsInv(START, run);
    var s := After(START, run);
    if s.readers[i].read <= s.readers[j].read {
      assert s.buf[..s.readers[j].read][..s.readers[i].read] == s.buf[..s.readers[i].read];
    } else {
      assert s.buf[..s.readers[i].read][..s.readers[j].read] == s.buf[..s.readers[j].read];
    }
  }

  /** A call returns EOF exactly when its reader is closed, or when the log is closed and it has returned all of it. */
  lemma EofMeansTheEnd(run: seq<Action>, c: nat)
    requires Legal(START, run) && Enabled(After(START, run), Look(c))
    ensures var s := After(START, run);
            var r := s.readers[s.calls[c].reader];
            Step(s, Look(c)).calls[c].phase == Over(Eof) <==> r.closed || (s.eof && r.got == s.buf)
  {
    RunKeepsInv(START, run);
  }

  /** While there is something to return no call sleeps, so every call that is not over can look again and be over. */
  lemma NoLostWakeUp(run: seq<Action>, c: nat)
    requires Legal(START, run) && c < |After(START, run).calls| && !After(START, run).calls[c].phase.Over?
    ensures After(START, run).calls[c].reader < |After(START, run).readers|
    ensures var s := After(START, run);
            var r := s.readers[s.calls[c].reader];
            (s.eof || r.closed || r.got != s.buf) ==> Enabled(s, Look(c)) && Step(s, Look(c)).calls[c].phase.Over?
  {
    RunKeepsInv(START, run);
  }
}
