/** The "key: value" lines of a commit message (maintner/gerrit.go), and the string functions they are read with. */
module Lines {

  // ---- Strings ----

  predicate Occurs(s: string, p: string, i: int) {
    0 <= i <= |s| - |p| && forall k :: 0 <= k < |p| ==> s[i + k] == p[k]
  }

  /** strings.Index: the first occurrence of p, or -1. */
  function Index(s: string, p: string): (i: int)
    ensures i == -1 || Occurs(s, p, i)
  {
    IndexFrom(s, p, 0)
  }

  function IndexFrom(s: string, p: string, from: nat): (i: int)
    requires from <= |s|
    ensures i == -1 || (from <= i && Occurs(s, p, i))
    decreases |s| - from
  {
    if Occurs(s, p, from) then from
    else if from == |s| then -1
    else IndexFrom(s, p, from + 1)
  }

  lemma {:induction false} IndexFromIsFirst(s: string, p: string, from: nat, j: int)
    requires from <= j && Occurs(s, p, j)
    ensures from <= IndexFrom(s, p, from) <= j
    decreases |s| - from
  {
    if !Occurs(s, p, from) {
      IndexFromIsFirst(s, p, from + 1, j);
    }
  }

  lemma OccursIn(s: string, p: string, from: nat, j: nat)
    requires from <= |s|
    ensures Occurs(s[from..], p, j) <==> Occurs(s, p, from + j)
  {
    if from + j + |p| <= |s| {
      assert forall k {:trigger p[k]} :: 0 <= k < |p| ==> s[from..][j + k] == s[from + j + k];
    }
  }

  /** Looking for p in what is left of s. */
  lemma {:induction false} IndexIn(s: string, p: string, from: nat, k: nat)
    requires from + k <= |s|
    ensures var i := IndexFrom(s[from..], p, k); IndexFrom(s, p, from + k) == if i == -1 then -1 else from + i
    decreases |s| - from - k
  {
    OccursIn(s, p, from, k);
    if from + k < |s| && !Occurs(s, p, from + k) {
      IndexIn(s, p, from, k + 1);
    }
  }

  /** strings.IndexByte: the first c, or -1. */
  function IndexByte(s: string, c: char): (i: int)
    ensures -1 <= i < |s|
  {
    if s == [] then -1
    else if s[0] == c then 0
    else
      var i := IndexByte(s[1..], c);
      if i == -1 then -1 else i + 1
  }

  lemma {:induction false} IndexByteIsFirst(s: string, c: char)
    ensures var i := IndexByte(s, c);
            (i == -1 && c !in s) || (0 <= i && s[i] == c && c !in s[..i])
  {
    if s != [] && s[0] != c {
      IndexByteIsFirst(s[1..], c);
      assert s == [s[0]] + s[1..];
    }
  }

  predicate IsSpace(c: char) {
    c == ' ' || c == '\t' || c == '\n' || c == '\r' || c == 11 as char || c == 12 as char
  }

  function TrimLeft(s: string): string {
    if s != [] && IsSpace(s[0]) then TrimLeft(s[1..]) else s
  }

  function TrimRight(s: string): string {
    if s != [] && IsSpace(s[|s| - 1]) then TrimRight(s[..|s| - 1]) else s
  }

  function TrimSpace(s: string): string {
    TrimRight(TrimLeft(s))
  }

  // ---- lineValueOK ----

  /** Position i is where a line starts. */
  predicate LineStart(s: string, i: nat) {
    i == 0 || (i <= |s| && (s[i - 1] == '\n' || s[i - 1] == '\r'))
  }

  /**
   Where lineValueOK finds the prefix, or -1: the first occurrence that begins a line, as it goes from one occurrence
   to the next. Where it goes on counts as the beginning of a line.
   */
  function Found(s: string, prefix: string, from: nat): (i: int)
    requires prefix != "" && from <= |s|
    ensures i == -1 || (from <= i && Occurs(s, prefix, i))
    decreases |s| - from
  {
    var i := IndexFrom(s, prefix, from);
    if i == -1 || i == from || LineStart(s, i) then i else Found(s, prefix, i + |prefix|)
  }

  /** The line from position i on, with its newline if it has one. */
  function LineAt(s: string, i: nat): (line: string)
    requires i <= |s|
    ensures i + |line| <= |s| && line == s[i..i + |line|]
  {
    var nl := IndexByte(s[i..], '\n');
    if nl == -1 then s[i..] else s[i..][..nl + 1]
  }

  datatype LineValue = LineValue(value: string, rest: string, ok: bool)

  /** What lineValueOK returns if it finds the prefix at i. */
  function LineValueAt(s: string, prefix: string, i: int): LineValue
    requires i == -1 || Occurs(s, prefix, i)
  {
    if i == -1 then LineValue("", "", false)
    else
      var line := LineAt(s, i + |prefix|);
      LineValue(TrimSpace(line), s[i + |prefix| + |line|..], true)
  }

  function LineValueOf(s: string, prefix: string): LineValue
    requires prefix != ""
  {
    LineValueAt(s, prefix, Found(s, prefix, 0))
  }

  /** The end of lineValueOK: the value starts at consumed. */
  method CutLine(orig: string, start: nat) returns (value: string, rest: string)
    requires start <= |orig|
    ensures var line := LineAt(orig, start); value == TrimSpace(line) && rest == orig[start + |line|..]
  {
    var consumed, val := start, orig[start..];
    var nl := IndexByte(val, '\n');
    if nl != -1 {
      consumed, val := consumed + nl + 1, val[..nl + 1];
    } else {
      consumed := |orig|;
    }
    assert val == LineAt(orig, start);
    return TrimSpace(val), orig[consumed..];
  }

  lemma FoundUnfolds(s: string, prefix: string, from: nat)
    requires prefix != "" && from <= |s|
    ensures var i := IndexFrom(s, prefix, from);
            if i == -1 || i == from || LineStart(s, i) then Found(s, prefix, from) == i
            else Found(s, prefix, from) == Found(s, prefix, i + |prefix|)
  {
  }

  /** One round of the loop of lineValueOK, on what is left from a position on. */
  lemma FoundStep(s: string, prefix: string, from: nat, i: int)
    requires prefix != "" && from <= |s| && i == Index(s[from..], prefix)
    ensures i == -1 ==> Found(s, prefix, from) == -1
    ensures i != -1 ==> from + i + |prefix| <= |s|
    ensures i != -1 && LineStart(s[from..], i) ==> Found(s, prefix, from) == from + i
    ensures i != -1 && !LineStart(s[from..], i) ==> Found(s, prefix, from) == Found(s, prefix, from + i + |prefix|)
  {
    FirstFrom(s, prefix, from, i);
    FoundUnfolds(s, prefix, from);
  }

  lemma FirstFrom(s: string, prefix: string, from: nat, i: int)
    requires from <= |s| && i == Index(s[from..], prefix)
    ensures IndexFrom(s, prefix, from) == if i == -1 then -1 else from + i
    ensures i > 0 ==> (LineStart(s[from..], i) <==> LineStart(s, from + i))
  {
    IndexIn(s, prefix, from, 0);
    assert i > 0 ==> s[from..][i - 1] == s[from + i - 1];
  }

  /** The first occurrence from consumed on is at i, and what will be found is goal. */
  ghost predicate Scanning(orig: string, prefix: string, consumed: nat, i: int, goal: int) {
    && prefix != "" && consumed <= |orig| && i == Index(orig[consumed..], prefix)
    && goal == Found(orig, prefix, consumed)
  }

  /** Goes on after an occurrence within a line. */
  method SkipOccurrence(orig: string, prefix: string, all: string, consumed: nat, i: nat, ghost goal: int)
    returns (all': string, consumed': nat, i': int)
    requires Scanning(orig, prefix, consumed, i, goal) && all == orig[consumed..] && !LineStart(all, i)
    ensures consumed < consumed' <= |orig| && all' == orig[consumed'..] && Scanning(orig, prefix, consumed', i', goal)
  {
    FoundStep(orig, prefix, consumed, i);
    all', consumed' := all[i + |prefix|..], consumed + i + |prefix|;
    assert all' == orig[consumed'..];
    i' := Index(all', prefix);
  }

  /** The loop of lineValueOK. */
  method FindLine(orig: string, prefix: string) returns (at: int)
    requires prefix != ""
    ensures (at == -1 || Occurs(orig, prefix, at)) && at == Found(orig, prefix, 0)
  {
    var all, consumed := orig, 0;
    ghost var goal := Found(orig, prefix, 0);
    assert orig[0..] == orig;
    var i := Index(all, prefix);
    while i != -1 && !LineStart(all, i)
      invariant 0 <= consumed <= |orig| && all == orig[consumed..] && Scanning(orig, prefix, consumed, i, goal)
      decreases |orig| - consumed
    {
      all, consumed, i := SkipOccurrence(orig, prefix, all, consumed, i, goal);
    }
    FoundStep(orig, prefix, consumed, i);
    at := if i == -1 then -1 else consumed + i;
  }

  method CutValue(orig: string, prefix: string, at: int) returns (value: string, rest: string, ok: bool)
    requires at == -1 || Occurs(orig, prefix, at)
    ensures LineValue(value, rest, ok) == LineValueAt(orig, prefix, at)
  {
    if at == -1 {
      return "", "", false;
    }
    value, rest := CutLine(orig, at + |prefix|);
    ok := true;
  }

  method LineValueOK(orig: string, prefix: string) returns (value: string, rest: string, ok: bool)
    requires prefix != ""
    ensures LineValue(value, rest, ok) == LineValueOf(orig, prefix)
  {
    var at := FindLine(orig, prefix);
    value, rest, ok := CutValue(orig, prefix, at);
  }

  /** A line found leaves less to read, so a loop over the lines ends. */
  lemma RestIsShorter(s: string, prefix: string)
    requires prefix != "" && LineValueOf(s, prefix).ok
    ensures |LineValueOf(s, prefix).rest| < |s|
  {
  }

  // ---- What is returned ----

  predicate AllSpace(s: string) {
    forall i :: 0 <= i < |s| ==> IsSpace(s[i])
  }

  lemma {:induction false} TrimmedLeft(s: string) returns (left: string)
    ensures s == left + TrimLeft(s) && AllSpace(left) && (TrimLeft(s) != "" ==> !IsSpace(TrimLeft(s)[0]))
  {
    left := "";
    if s != "" && IsSpace(s[0]) {
      var more := TrimmedLeft(s[1..]);
      left := [s[0]] + more;
      assert s == [s[0]] + s[1..];
    }
  }

  lemma {:induction false} TrimmedRight(s: string) returns (right: string)
    ensures s == TrimRight(s) + right && AllSpace(right) && (TrimRight(s) != "" ==> !IsSpace(TrimRight(s)[|TrimRight(s)| - 1]))
  {
    right := "";
    if s != "" && IsSpace(s[|s| - 1]) {
      var more := TrimmedRight(s[..|s| - 1]);
      right := more + [s[|s| - 1]];
      assert s == s[..|s| - 1] + [s[|s| - 1]];
    }
  }

  /** White space: blank, tab, line feed, vertical tab, form feed, carriage return. */
  lemma Spaces(c: char)
    ensures IsSpace(c) <==> c as int in {32, 9, 10, 11, 12, 13}
  {
  }

  /** Trimming takes white space away on both sides, all of it and nothing else. */
  lemma Trimmed(s: string) returns (left: string, right: string)
    ensures s == left + TrimSpace(s) + right && AllSpace(left) && AllSpace(right)
    ensures var t := TrimSpace(s); t != "" ==> !IsSpace(t[0]) && !IsSpace(t[|t| - 1])
  {
    left := TrimmedLeft(s);
    right := TrimmedRight(TrimLeft(s));
    assert TrimSpace(s) != "" ==> TrimSpace(s)[0] == TrimLeft(s)[0];
  }

  lemma {:induction false} IndexByteAfter(a: string, c: char, b: string)
    requires c !in a
    ensures IndexByte(a + [c] + b, c) == |a|
  {
    if a == "" {
      assert (a + [c] + b)[0] == c;
    } else {
      assert (a + [c] + b)[0] == a[0] && (a + [c] + b)[1..] == a[1..] + [c] + b;
      IndexByteAfter(a[1..], c, b);
    }
  }

  /** Reading a text that begins with a line: the trimmed value, and what comes after the line. */
  lemma LineReadsBack(prefix: string, value: string, rest: string)
    requires prefix != "" && '\n' !in value
    ensures var r := LineValueOf(prefix + value + "\n" + rest, prefix);
            r == LineValue(TrimSpace(value + "\n"), rest, true)
  {
    var s, n := prefix + value + "\n" + rest, |prefix|;
    assert Occurs(s, prefix, 0) && Found(s, prefix, 0) == 0;
    assert s[n..] == value + ['\n'] + rest;
    IndexByteAfter(value, '\n', rest);
    assert LineAt(s, n) == value + "\n";
  }

  /** The last line of a text may lack its newline. */
  lemma LastLineReadsBack(prefix: string, value: string)
    requires prefix != "" && '\n' !in value
    ensures LineValueOf(prefix + value, prefix) == LineValue(TrimSpace(value), "", true)
  {
    var s, n := prefix + value, |prefix|;
    assert Occurs(s, prefix, 0) && Found(s, prefix, 0) == 0;
    assert s[n..] == value;
    IndexByteIsFirst(value, '\n');
    assert LineAt(s, n) == value;
  }

  // ---- What is found ----

  /** A prefix that does not overlap with itself, like "Label: ", and lies within a line. */
  predicate Simple(prefix: string) {
    prefix != "" && prefix[0] !in prefix[1..] && '\n' !in prefix && '\r' !in prefix
  }

  /** What counts: the prefix at the beginning of a line, or right after another occurrence of itself. */
  predicate Counts(s: string, prefix: string, i: int) {
    Occurs(s, prefix, i) && (LineStart(s, i) || Occurs(s, prefix, i - |prefix|))
  }

  lemma NoOverlap(s: string, prefix: string, i: int, j: int)
    requires Simple(prefix) && Occurs(s, prefix, i) && Occurs(s, prefix, j) && i < j
    ensures i + |prefix| <= j
  {
    assert s[j + 0] == prefix[0];
    assert forall k :: 0 < k < |prefix| ==> prefix[k] == prefix[1..][k - 1];
    var k := if j < i + |prefix| then j - i else 0;
    assert s[i + k] == prefix[k];
  }

  /** What lineValueOK finds counts. */
  lemma {:induction false} FoundCounts(s: string, prefix: string, from: nat)
    requires prefix != "" && from <= |s| && (from == 0 || Occurs(s, prefix, from - |prefix|))
    ensures var i := Found(s, prefix, from); i != -1 ==> Counts(s, prefix, i)
    decreases |s| - from
  {
    var i := IndexFrom(s, prefix, from);
    if i != -1 && i != from && !LineStart(s, i) {
      var next := i + |prefix|;
      assert next - |prefix| == i;
      assert Found(s, prefix, from) == Found(s, prefix, next);
      FoundCounts(s, prefix, next);
    } else {
      assert Found(s, prefix, from) == i;
    }
  }

  /** lineValueOK finds the first occurrence that counts, and only fails if there is none. */
  lemma {:induction false} FoundIsFirst(s: string, prefix: string, from: nat, j: int)
    requires Simple(prefix) && from <= |s| && (from == 0 || Occurs(s, prefix, from - |prefix|))
    requires from <= j && Counts(s, prefix, j)
    ensures from <= Found(s, prefix, from) <= j
    decreases |s| - from
  {
    var i := IndexFrom(s, prefix, from);
    IndexFromIsFirst(s, prefix, from, j);
    if i != from && !LineStart(s, i) {
      var next := i + |prefix|;
      assert next - |prefix| == i;
      assert Found(s, prefix, from) == Found(s, prefix, next);
      CountsLater(s, prefix, from, i, j);
      FoundIsFirst(s, prefix, next, j);
    } else {
      assert Found(s, prefix, from) == i;
    }
  }

  /** After an occurrence that does not count comes the next one, if any. */
  lemma CountsLater(s: string, prefix: string, from: nat, i: int, j: int)
    requires Simple(prefix) && from <= |s| && (from == 0 || Occurs(s, prefix, from - |prefix|))
    requires i == IndexFrom(s, prefix, from) && i > from && !LineStart(s, i) && i <= j && Counts(s, prefix, j)
    ensures j >= i + |prefix|
  {
    if i < j {
      NoOverlap(s, prefix, i, j);
    } else {
      var k := i - |prefix|;
      if k < from {
        NoOverlap(s, prefix, from - |prefix|, k);
      } else {
        IndexFromIsFirst(s, prefix, from, k);
      }
    }
  }

  /**
   The value comes from the first line that begins with the prefix exactly when the prefix does not occur twice in a
   row before that line.
   */
  lemma FoundIsALine(s: string, prefix: string, first: nat)
    requires Simple(prefix) && Occurs(s, prefix, first) && LineStart(s, first)
    requires forall j: nat :: Occurs(s, prefix, j) && LineStart(s, j) ==> first <= j
    ensures Found(s, prefix, 0) == first <==> forall j: nat :: j < first ==> !Occurs(s, prefix + prefix, j)
  {
    FoundIsFirst(s, prefix, 0, first);
    FoundCounts(s, prefix, 0);
    var at := Found(s, prefix, 0);
    if at != first {
      Doubled(s, prefix, at - |prefix|);
    } else {
      forall j: nat | j < first ensures !Occurs(s, prefix + prefix, j) {
        NotDoubled(s, prefix, j, first);
      }
    }
  }

  /** Nothing is found if and only if no line begins with the prefix and it occurs nowhere twice in a row. */
  lemma NothingIsFound(s: string, prefix: string)
    requires Simple(prefix)
    ensures Found(s, prefix, 0) == -1 <==>
              && (forall j: nat :: Occurs(s, prefix, j) ==> !LineStart(s, j))
              && (forall j: nat :: !Occurs(s, prefix + prefix, j))
  {
    FoundCounts(s, prefix, 0);
    var at := Found(s, prefix, 0);
    if at != -1 {
      Doubled(s, prefix, at - |prefix|);
    } else {
      forall j: nat ensures !Counts(s, prefix, j) {
        if Counts(s, prefix, j) {
          FoundIsFirst(s, prefix, 0, j);
        }
      }
      forall j: nat | Occurs(s, prefix, j) ensures !LineStart(s, j) {
        assert !Counts(s, prefix, j);
      }
      forall j: nat ensures !Occurs(s, prefix + prefix, j) {
        Doubled(s, prefix, j);
        assert !Counts(s, prefix, j + |prefix|);
        assert j + |prefix| - |prefix| == j;
      }
    }
  }

  lemma NotDoubled(s: string, prefix: string, j: nat, first: nat)
    requires Simple(prefix) && Occurs(s, prefix, first) && LineStart(s, first) && j < first && Found(s, prefix, 0) == first
    ensures !Occurs(s, prefix + prefix, j)
  {
    if Occurs(s, prefix + prefix, j) {
      DoubledIsBefore(s, prefix, j, first);
      FoundIsFirst(s, prefix, 0, j + |prefix|);
    }
  }

  lemma DoubledIsBefore(s: string, prefix: string, j: nat, first: nat)
    requires Simple(prefix) && Occurs(s, prefix, first) && LineStart(s, first) && j < first && Occurs(s, prefix + prefix, j)
    ensures Counts(s, prefix, j + |prefix|) && j + |prefix| < first
  {
    Doubled(s, prefix, j);
    assert j + |prefix| - |prefix| == j;
    NoOverlap(s, prefix, j, first);
    assert s[j + (|prefix| - 1)] == prefix[|prefix| - 1];
  }

  lemma Doubled(s: string, prefix: string, j: int)
    ensures Occurs(s, prefix + prefix, j) <==> Occurs(s, prefix, j) && Occurs(s, prefix, j + |prefix|)
  {
    var n := |prefix|;
    if Occurs(s, prefix + prefix, j) {
      forall k | 0 <= k < n ensures s[j + k] == prefix[k] && s[j + n + k] == prefix[k] {
        assert (prefix + prefix)[k] == prefix[k] && (prefix + prefix)[n + k] == prefix[k];
      }
    }
  }

  lemma ValueAt(s: string, k: nat, value: string, rest: string)
    requires k <= |s| && s[k..] == value + "\n" + rest && '\n' !in value
    ensures LineAt(s, k) == value + "\n" && s[k + |value| + 1..] == rest
  {
    IndexByteAfter(value, '\n', rest);
    assert value + ['\n'] + rest == s[k..];
    assert s[k + |value| + 1..] == s[k..][|value| + 1..];
  }

  lemma OccursAt(s: string, prefix: string, at: nat, after: string)
    requires at <= |s| && s[at..] == prefix + after
    ensures Occurs(s, prefix, at) && s[at + |prefix|..] == after
  {
    OccursIn(s, prefix, at, 0);
    assert s[at + |prefix|..] == s[at..][|prefix|..];
  }

  lemma LineValueIs(s: string, prefix: string, at: nat, line: string, rest: string)
    requires prefix != "" && Found(s, prefix, 0) == at && Occurs(s, prefix, at)
    requires LineAt(s, at + |prefix|) == line && s[at + |prefix| + |line|..] == rest
    ensures LineValueOf(s, prefix) == LineValue(TrimSpace(line), rest, true)
  {
  }

  lemma FoundThere(s: string, prefix: string, at: nat)
    requires Simple(prefix) && Occurs(s, prefix, at) && LineStart(s, at) && forall j: nat :: j < at ==> !Occurs(s, prefix, j)
    ensures Found(s, prefix, 0) == at
  {
    FoundIsFirst(s, prefix, 0, at);
  }

  /** A line that comes later, after a newline or a carriage return, is read in the same way if the prefix does not occur before it. */
  lemma LaterLineReadsBack(s: string, at: nat, prefix: string, value: string, rest: string)
    requires Simple(prefix) && '\n' !in value && 0 < at <= |s| && s[at..] == prefix + (value + "\n" + rest)
    requires (s[at - 1] == '\n' || s[at - 1] == '\r') && forall j: nat :: j < at ==> !Occurs(s, prefix, j)
    ensures LineValueOf(s, prefix) == LineValue(TrimSpace(value + "\n"), rest, true)
  {
    OccursAt(s, prefix, at, value + "\n" + rest);
    FoundThere(s, prefix, at);
    ValueAt(s, at + |prefix|, value, rest);
    LineValueIs(s, prefix, at, value + "\n", rest);
  }

  /** It is not always so: in "xL: L: A" no line begins with "L: ", yet a value is found. */
  lemma NotAlwaysALine()
    ensures LineValueOf("xL: L: A", "L: ") == LineValue("A", "", true)
    ensures forall i :: Occurs("xL: L: A", "L: ", i) ==> !LineStart("xL: L: A", i)
  {
    var s, p := "xL: L: A", "L: ";
    assert Occurs(s, p, 1) && Occurs(s, p, 4);
    assert forall i :: Occurs(s, p, i) ==> s[i + 0] == p[0];
    assert Found(s, p, 0) == 4 by {
      FoundIsFirst(s, p, 0, 4);
      FoundCounts(s, p, 0);
    }
    assert s[7..] == "A";
    assert IndexByte("A", '\n') == -1 && TrimSpace("A") == "A";
  }
}
