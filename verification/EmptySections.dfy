/** Removing the headings of empty sections from a document, in place (relnote/relnote.go). */
module EmptySections {

  /** A block of a document. Headings have a level of at least 1, other blocks have level 0. */
  class Block {
    const level: nat
    var startLine: int
    var endLine: int

    constructor (level: nat, startLine: int, endLine: int)
      ensures this.level == level && this.startLine == startLine && this.endLine == endLine
    {
      this.level, this.startLine, this.endLine := level, startLine, endLine;
    }

    method AddLines(n: int)
      modifies this
      ensures startLine == old(startLine) + n && endLine == old(endLine) + n
    {
      startLine, endLine := startLine + n, endLine + n;
    }
  }

  // ---- What should be kept ----

  /** Heading j is directly followed by deeper headings only, up to block k. */
  ghost predicate Open(bs: seq<Block>, k: nat, j: nat)
    requires j < k <= |bs|
  {
    bs[j].level > 0 && forall i :: j < i < k ==> bs[i].level > bs[j].level
  }

  /** Among the first n blocks: j is no heading, or its section has a block that is no heading. */
  ghost predicate Saved(bs: seq<Block>, n: nat, j: nat)
    requires j < n <= |bs|
  {
    bs[j].level == 0 || exists k :: j < k < n && bs[k].level == 0 && Open(bs, k, j)
  }

  /** A block is kept if it is no heading, or if one that is no heading follows before any heading of the same or a smaller level. */
  ghost predicate Keeps(bs: seq<Block>, j: nat)
    requires j < |bs|
  {
    Saved(bs, |bs|, j)
  }

  /** The kept ones of the first n blocks, in order. */
  ghost function Survivors(bs: seq<Block>, n: nat): seq<Block>
    requires n <= |bs|
  {
    if n == 0 then [] else Survivors(bs, n - 1) + if Keeps(bs, n - 1) then [bs[n - 1]] else []
  }

  datatype Position = Position(startLine: int, endLine: int)

  ghost function Positions(bs: seq<Block>): (ps: seq<Position>)
    reads bs
  {
    seq(|bs|, i requires 0 <= i < |bs| reads bs => Position(bs[i].startLine, bs[i].endLine))
  }

  /** The lines that go away with a heading: its own, and the blank line after it. */
  function Height(p: Position): int {
    p.endLine - p.startLine + 2
  }

  /** The heights of the removed headings among the first n blocks. */
  ghost function Shift(bs: seq<Block>, ps: seq<Position>, n: nat): int
    requires n <= |bs| == |ps|
  {
    if n == 0 then 0 else Shift(bs, ps, n - 1) + if Keeps(bs, n - 1) then 0 else Height(ps[n - 1])
  }

  /** The heights of the blocks before j that are off the stack when j comes. */
  ghost function Left(bs: seq<Block>, ps: seq<Position>, j: nat, n: nat): int
    requires n <= j < |bs| == |ps|
  {
    if n == 0 then 0 else Left(bs, ps, j, n - 1) + if Alive(bs, j, bs[j].level, n - 1) then 0 else Height(ps[n - 1])
  }

  /** How far a block moves up: it moves at each of its places among the first n. */
  ghost function Moves(bs: seq<Block>, ps: seq<Position>, b: Block, n: nat): int
    requires n <= |bs| == |ps|
  {
    if n == 0 then 0 else Moves(bs, ps, b, n - 1) + if bs[n - 1] == b then Left(bs, ps, n - 1, n - 1) else 0
  }

  /** Block b is at p, moved up by n lines. */
  ghost predicate At(b: Block, p: Position, n: int)
    reads b
  {
    b.startLine == p.startLine - n && b.endLine == p.endLine - n
  }

  // ---- The rule in the comment ----

  /** The comment on removeEmptySections: heading j has content if one that is no heading follows before the next of its level. */
  ghost predicate HasContent(bs: seq<Block>, j: nat)
    requires j < |bs|
  {
    exists k :: j < k < |bs| && bs[k].level == 0 && forall i :: j < i < k ==> bs[i].level != bs[j].level
  }

  /** A heading of a smaller level than j follows only after a block that is no heading. */
  ghost predicate Shielded(bs: seq<Block>, j: nat)
    requires j < |bs|
  {
    forall i :: j < i < |bs| && 0 < bs[i].level < bs[j].level ==> exists k :: j < k < i && bs[k].level == 0
  }

  /** The code removes more than the comment says: of the levels 2, 1, 0 the first, which has content. */
  lemma CommentDiffers(bs: seq<Block>)
    requires |bs| == 3 && bs[0].level == 2 && bs[1].level == 1 && bs[2].level == 0
    ensures HasContent(bs, 0) && !Keeps(bs, 0)
  {
    assert bs[2].level == 0 && forall i :: 0 < i < 2 ==> bs[i].level != bs[0].level;
    assert forall k :: 0 < k < |bs| && bs[k].level == 0 ==> !Open(bs, k, 0);
  }

  lemma {:induction false} FirstAfter(bs: seq<Block>, j: nat, k: nat) returns (first: nat)
    requires j < k < |bs| && bs[k].level == 0
    ensures j < first <= k && bs[first].level == 0 && forall i :: j < i < first ==> bs[i].level > 0
  {
    first := k;
    if i :| j < i < k && bs[i].level == 0 {
      first := FirstAfter(bs, j, i);
    }
  }

  /** The code keeps a heading if and only if it has content by the comment, and no heading of a smaller level cuts it off. */
  lemma KeepsExactly(bs: seq<Block>, j: nat)
    requires j < |bs| && bs[j].level > 0
    ensures Keeps(bs, j) <==> HasContent(bs, j) && Shielded(bs, j)
  {
    if Keeps(bs, j) {
      var k :| j < k < |bs| && bs[k].level == 0 && Open(bs, k, j);
      assert forall i :: j < i < k ==> bs[i].level != bs[j].level;
    } else if HasContent(bs, j) && Shielded(bs, j) {
      var k :| j < k < |bs| && bs[k].level == 0 && forall i :: j < i < k ==> bs[i].level != bs[j].level;
      var first := FirstAfter(bs, j, k);
      assert Open(bs, first, j);
    }
  }

  // ---- The stack of blocks that may still be kept ----

  /** Block j is still on the stack when the blocks before n have been read and one of level `level` comes next. */
  ghost predicate Alive(bs: seq<Block>, n: nat, level: nat, j: nat)
    requires j < n <= |bs|
  {
    Saved(bs, n, j) || (Open(bs, n, j) && (level > 0 ==> bs[j].level < level))
  }

  /** The stack: idx lists the blocks that are alive, in order. */
  ghost predicate Stack(bs: seq<Block>, n: nat, level: nat, idx: seq<nat>) {
    && n <= |bs|
    && (forall s, t :: 0 <= s < t < |idx| ==> idx[s] < idx[t])
    && (forall s :: 0 <= s < |idx| ==> idx[s] < n)
    && (forall j :: 0 <= j < n ==> (j in idx <==> Alive(bs, n, level, j)))
  }

  /** A heading on top of the stack is open. */
  lemma TopIsOpen(bs: seq<Block>, n: nat, all: seq<nat>, t: nat)
    requires Stack(bs, n, 0, all) && t < |all|
    requires forall s :: t <= s < |all| ==> bs[all[s]].level > 0
    ensures Open(bs, n, all[t])
  {
    assert all[t] in all;
    forall k | all[t] < k < n && Saved(bs, n, k) ensures bs[k].level > 0 {
      assert k in all;
    }
  }

  /** Popping the headings of the same or a deeper level leaves the stack for a heading of that level. */
  lemma Popped(bs: seq<Block>, n: nat, level: nat, all: seq<nat>, t: nat)
    requires level > 0 && Stack(bs, n, 0, all) && t <= |all|
    requires forall s :: t <= s < |all| ==> bs[all[s]].level >= level
    requires t > 0 ==> bs[all[t - 1]].level < level
    ensures Stack(bs, n, level, all[..t])
  {
    forall j | 0 <= j < n ensures j in all[..t] <==> Alive(bs, n, level, j) {
      if j in all {
        var s :| 0 <= s < |all| && all[s] == j;
        if s < t {
          assert all[..t][s] == j;
          StaysAlive(bs, n, level, all, t, s);
        } else {
          TopIsOpen(bs, n, all, s);
          OpenIsNotSaved(bs, n, j);
          assert j !in all[..t];
        }
      }
    }
  }

  lemma StaysAlive(bs: seq<Block>, n: nat, level: nat, all: seq<nat>, t: nat, s: nat)
    requires Stack(bs, n, 0, all) && s < t <= |all| && bs[all[t - 1]].level < level
    ensures Alive(bs, n, level, all[s])
  {
    assert all[s] in all && all[t - 1] in all;
    if !Saved(bs, n, all[s]) {
      assert s < t - 1 ==> all[s] < all[t - 1];
    }
  }

  lemma OpenIsNotSaved(bs: seq<Block>, n: nat, j: nat)
    requires j < n <= |bs| && Open(bs, n, j)
    ensures !Saved(bs, n, j)
  {
  }

  /** Pushing the next block. */
  lemma Pushed(bs: seq<Block>, n: nat, idx: seq<nat>)
    requires n < |bs| && Stack(bs, n, bs[n].level, idx)
    ensures Stack(bs, n + 1, 0, idx + [n])
  {
    forall j | 0 <= j < n + 1 ensures j in idx + [n] <==> Alive(bs, n + 1, 0, j) {
      if j < n {
        AliveOneMore(bs, n, j);
      }
    }
  }

  lemma AliveOneMore(bs: seq<Block>, n: nat, j: nat)
    requires j < n < |bs|
    ensures Alive(bs, n, bs[n].level, j) <==> Alive(bs, n + 1, 0, j)
  {
    if Saved(bs, n, j) && bs[j].level > 0 {
      var k :| j < k < n && bs[k].level == 0 && Open(bs, k, j);
      assert Saved(bs, n + 1, j);
    }
  }

  /** If block n is kept, a block before it is on the stack for n exactly when it is kept. */
  lemma AliveIsKept(bs: seq<Block>, n: nat, j: nat)
    requires j < n < |bs| && Keeps(bs, n)
    ensures Alive(bs, n, bs[n].level, j) <==> Keeps(bs, j)
  {
    if Saved(bs, n, j) {
      if bs[j].level > 0 {
        var k :| j < k < n && bs[k].level == 0 && Open(bs, k, j);
        assert Keeps(bs, j);
      }
    } else if Open(bs, n, j) && (bs[n].level > 0 ==> bs[j].level < bs[n].level) {
      if bs[n].level == 0 {
        assert Keeps(bs, j);
      } else {
        var k :| n < k < |bs| && bs[k].level == 0 && Open(bs, k, n);
        assert Open(bs, k, j);
      }
    } else if Keeps(bs, j) {
      NotAliveNotKept(bs, n, j);
    }
  }

  lemma NotAliveNotKept(bs: seq<Block>, n: nat, j: nat)
    requires j < n < |bs| && !Alive(bs, n, bs[n].level, j)
    ensures !Keeps(bs, j)
  {
    assert forall k :: j < k < |bs| && bs[k].level == 0 && Open(bs, k, j) ==> k < n || Open(bs, n, j);
  }

  // ---- The lines removed ----

  /** The heights of those of the first n blocks that are not listed in idx. */
  ghost function Missing(ps: seq<Position>, idx: seq<nat>, n: nat): int
    requires n <= |ps|
  {
    if n == 0 then 0 else Missing(ps, idx, n - 1) + if n - 1 in idx then 0 else Height(ps[n - 1])
  }

  lemma {:induction false} MissingPop(ps: seq<Position>, idx: seq<nat>, n: nat)
    requires n <= |ps| && idx != [] && forall s, t :: 0 <= s < t < |idx| ==> idx[s] < idx[t]
    ensures var t := |idx| - 1;
            Missing(ps, idx[..t], n) == Missing(ps, idx, n) + if idx[t] < n then Height(ps[idx[t]]) else 0
  {
    if n > 0 {
      MissingPop(ps, idx, n - 1);
      var t := |idx| - 1;
      assert idx == idx[..t] + [idx[t]];
    }
  }

  lemma {:induction false} MissingPush(ps: seq<Position>, idx: seq<nat>, k: nat, n: nat)
    requires n <= |ps| && n <= k
    ensures Missing(ps, idx + [k], n) == Missing(ps, idx, n)
  {
    if n > 0 {
      MissingPush(ps, idx, k, n - 1);
    }
  }

  lemma {:induction false} MissingIsLeft(bs: seq<Block>, ps: seq<Position>, idx: seq<nat>, j: nat, n: nat)
    requires n <= j < |bs| == |ps| && Stack(bs, j, bs[j].level, idx)
    ensures Missing(ps, idx, n) == Left(bs, ps, j, n)
  {
    if n > 0 {
      MissingIsLeft(bs, ps, idx, j, n - 1);
    }
  }

  /** Below a block that is kept, exactly the blocks that are not kept are off the stack. */
  lemma {:induction false} LeftIsShift(bs: seq<Block>, ps: seq<Position>, j: nat, n: nat)
    requires n <= j < |bs| == |ps| && Keeps(bs, j)
    ensures Left(bs, ps, j, n) == Shift(bs, ps, n)
  {
    if n > 0 {
      LeftIsShift(bs, ps, j, n - 1);
      AliveIsKept(bs, j, n - 1);
    }
  }

  lemma {:induction false} MovesOnce(bs: seq<Block>, ps: seq<Position>, j: nat, n: nat)
    requires n <= |bs| == |ps| && j < |bs| && forall i :: 0 <= i < |bs| && i != j ==> bs[i] != bs[j]
    ensures Moves(bs, ps, bs[j], n) == if j < n then Left(bs, ps, j, j) else 0
  {
    if n > 0 {
      MovesOnce(bs, ps, j, n - 1);
    }
  }

  /** A kept block that is in the document once moves up by the heights of the headings removed before it. */
  lemma KeptMoves(bs: seq<Block>, ps: seq<Position>, j: nat)
    requires |bs| == |ps| && j < |bs| && Keeps(bs, j) && forall i :: 0 <= i < |bs| && i != j ==> bs[i] != bs[j]
    ensures Moves(bs, ps, bs[j], |bs|) == Shift(bs, ps, j)
  {
    MovesOnce(bs, ps, j, |bs|);
    LeftIsShift(bs, ps, j, j);
  }

  /** One blank line comes between any block and the next. */
  predicate Spaced(ps: seq<Position>) {
    forall k :: 0 < k < |ps| ==> ps[k].startLine == ps[k - 1].endLine + 2
  }

  /** No block from i up to j is kept. */
  ghost predicate Gap(bs: seq<Block>, i: nat, j: nat)
    requires j <= |bs|
  {
    forall k :: i <= k < j ==> !Keeps(bs, k)
  }

  lemma {:induction false} GapShift(bs: seq<Block>, ps: seq<Position>, i: nat, j: nat)
    requires i <= j < |bs| == |ps| && Spaced(ps) && Gap(bs, i, j)
    ensures Shift(bs, ps, j) - Shift(bs, ps, i) == ps[j].startLine - ps[i].startLine
    decreases j
  {
    if i < j {
      GapShift(bs, ps, i, j - 1);
    }
  }

  /** In a document with one blank line between blocks the kept ones have one between them too, from the first line on. */
  lemma SpacingStays(bs: seq<Block>, ps: seq<Position>, i: nat, j: nat)
    requires j < |bs| == |ps| && Spaced(ps)
    ensures i < j && Keeps(bs, i) && Gap(bs, i + 1, j) ==>
              ps[j].startLine - Shift(bs, ps, j) == ps[i].endLine - Shift(bs, ps, i) + 2
    ensures Gap(bs, 0, j) ==> ps[j].startLine - Shift(bs, ps, j) == ps[0].startLine
  {
    if i < j && Keeps(bs, i) && Gap(bs, i + 1, j) {
      GapShift(bs, ps, i + 1, j);
    }
    if Gap(bs, 0, j) {
      GapShift(bs, ps, 0, j);
    }
  }

  // ---- The stack in the end ----

  ghost function Pick(bs: seq<Block>, idx: seq<nat>): seq<Block>
    requires forall s :: 0 <= s < |idx| ==> idx[s] < |bs|
  {
    seq(|idx|, s requires 0 <= s < |idx| => bs[idx[s]])
  }

  /** The last pop, as for a heading of level 1, leaves exactly the blocks to keep. */
  lemma LastPop(bs: seq<Block>, idx: seq<nat>)
    requires Stack(bs, |bs|, 1, idx)
    ensures Lists(bs, idx, |bs|) && Pick(bs, idx) == Survivors(bs, |bs|)
  {
    PickIsSurvivors(bs, idx, |bs|);
  }

  lemma LastIs(idx: seq<nat>, n: nat)
    requires forall s, t :: 0 <= s < t < |idx| ==> idx[s] < idx[t]
    requires forall s :: 0 <= s < |idx| ==> idx[s] < n
    requires n > 0 && n - 1 in idx
    ensures idx == idx[..|idx| - 1] + [n - 1]
    ensures forall j :: 0 <= j < n - 1 ==> (j in idx[..|idx| - 1] <==> j in idx)
  {
    var s :| 0 <= s < |idx| && idx[s] == n - 1;
    assert idx == idx[..|idx| - 1] + [n - 1];
  }

  lemma {:induction false} NotMore(idx: seq<nat>, n: nat)
    requires forall s, t :: 0 <= s < t < |idx| ==> idx[s] < idx[t]
    requires forall s :: 0 <= s < |idx| ==> idx[s] < n
    ensures |idx| <= n
  {
    if idx != [] {
      NotMore(idx[..|idx| - 1], idx[|idx| - 1]);
    }
  }

  lemma PickOneMore(bs: seq<Block>, idx: seq<nat>, j: nat)
    requires j < |bs| && forall s :: 0 <= s < |idx| ==> idx[s] < |bs|
    ensures Pick(bs, idx + [j]) == Pick(bs, idx) + [bs[j]]
  {
  }

  /** idx lists the kept ones of the first n blocks, in order. */
  ghost predicate Lists(bs: seq<Block>, idx: seq<nat>, n: nat) {
    && n <= |bs|
    && (forall s, t :: 0 <= s < t < |idx| ==> idx[s] < idx[t])
    && (forall s :: 0 <= s < |idx| ==> idx[s] < n)
    && (forall j :: 0 <= j < n ==> (j in idx <==> Keeps(bs, j)))
  }

  lemma ListsFewer(bs: seq<Block>, idx: seq<nat>, n: nat)
    requires n > 0 && Lists(bs, idx, n)
    ensures if Keeps(bs, n - 1) then idx != [] && Lists(bs, idx[..|idx| - 1], n - 1) else Lists(bs, idx, n - 1)
  {
    if Keeps(bs, n - 1) {
      LastIs(idx, n);
      var init := idx[..|idx| - 1];
      forall s | 0 <= s < |init| ensures init[s] < n - 1 {
        assert idx[s] < idx[|idx| - 1];
      }
    } else {
      forall s | 0 <= s < |idx| ensures idx[s] < n - 1 {
        assert idx[s] in idx;
      }
    }
  }

  lemma NothingListed(bs: seq<Block>, idx: seq<nat>)
    requires Lists(bs, idx, 0)
    ensures Pick(bs, idx) == []
  {
    NotMore(idx, 0);
  }

  /** The picked blocks are the survivors among the first n. */
  ghost predicate PicksSurvivors(bs: seq<Block>, idx: seq<nat>, n: nat)
    requires n <= |bs|
  {
    (forall s :: 0 <= s < |idx| ==> idx[s] < |bs|) && Pick(bs, idx) == Survivors(bs, n)
  }

  lemma {:induction false} PickIsSurvivors(bs: seq<Block>, idx: seq<nat>, n: nat)
    requires Lists(bs, idx, n)
    ensures PicksSurvivors(bs, idx, n)
    decreases n, 1
  {
    if n == 0 {
      NothingListed(bs, idx);
    } else if Keeps(bs, n - 1) {
      PickIfKept(bs, idx, n);
    } else {
      PickIfDropped(bs, idx, n);
    }
  }

  lemma {:induction false} PickIfKept(bs: seq<Block>, idx: seq<nat>, n: nat)
    requires n > 0 && Lists(bs, idx, n) && Keeps(bs, n - 1)
    ensures PicksSurvivors(bs, idx, n)
    decreases n, 0
  {
    ListsFewer(bs, idx, n);
    PickIsSurvivors(bs, idx[..|idx| - 1], n - 1);
    PickLast(bs, idx, n);
  }

  lemma {:induction false} PickIfDropped(bs: seq<Block>, idx: seq<nat>, n: nat)
    requires n > 0 && Lists(bs, idx, n) && !Keeps(bs, n - 1)
    ensures PicksSurvivors(bs, idx, n)
    decreases n, 0
  {
    ListsFewer(bs, idx, n);
    PickIsSurvivors(bs, idx, n - 1);
    PickDropped(bs, idx, n);
  }

  lemma PickKept(bs: seq<Block>, idx: seq<nat>, n: nat)
    requires 0 < n <= |bs| && Keeps(bs, n - 1) && PicksSurvivors(bs, idx, n - 1)
    ensures PicksSurvivors(bs, idx + [n - 1], n)
  {
    PickOneMore(bs, idx, n - 1);
  }

  lemma PickLast(bs: seq<Block>, idx: seq<nat>, n: nat)
    requires n > 0 && idx != [] && Lists(bs, idx, n) && Keeps(bs, n - 1) && PicksSurvivors(bs, idx[..|idx| - 1], n - 1)
    ensures PicksSurvivors(bs, idx, n)
  {
    LastIs(idx, n);
    PickKept(bs, idx[..|idx| - 1], n);
  }

  lemma PickDropped(bs: seq<Block>, idx: seq<nat>, n: nat)
    requires 0 < n <= |bs| && !Keeps(bs, n - 1) && PicksSurvivors(bs, idx, n - 1)
    ensures PicksSurvivors(bs, idx, n)
  {
    assert Survivors(bs, n - 1) + [] == Survivors(bs, n - 1);
  }

  lemma {:induction false} SurvivorsFrom(bs: seq<Block>, n: nat) returns (idx: seq<nat>)
    requires n <= |bs|
    ensures Lists(bs, idx, n) && PicksSurvivors(bs, idx, n)
  {
    idx := [];
    if n > 0 {
      idx := SurvivorsFrom(bs, n - 1);
      if Keeps(bs, n - 1) {
        PickKept(bs, idx, n);
        ListsMore(bs, idx, n);
        idx := idx + [n - 1];
      } else {
        PickDropped(bs, idx, n);
        ListsSame(bs, idx, n);
      }
    }
  }

  lemma ListsSame(bs: seq<Block>, idx: seq<nat>, n: nat)
    requires 0 < n <= |bs| && Lists(bs, idx, n - 1) && !Keeps(bs, n - 1)
    ensures Lists(bs, idx, n)
  {
    assert n - 1 !in idx;
  }

  lemma ListsMore(bs: seq<Block>, idx: seq<nat>, n: nat)
    requires 0 < n <= |bs| && Lists(bs, idx, n - 1) && Keeps(bs, n - 1)
    ensures Lists(bs, idx + [n - 1], n)
  {
    forall j | 0 <= j < n ensures j in idx + [n - 1] <==> Keeps(bs, j) {
      assert j in idx + [n - 1] <==> j in idx || j == n - 1;
      assert j in idx ==> j < n - 1;
    }
  }

  /** No empty section is left: what follows a heading is a deeper heading or no heading at all. */
  lemma NoEmptySectionIsLeft(bs: seq<Block>, t: nat)
    requires t < |Survivors(bs, |bs|)| && Survivors(bs, |bs|)[t].level > 0
    ensures var kept := Survivors(bs, |bs|);
            t + 1 < |kept| && (kept[t + 1].level == 0 || kept[t + 1].level > kept[t].level)
  {
    var idx := SurvivorsFrom(bs, |bs|);
    assert Pick(bs, idx)[t] == bs[idx[t]];
    var j := idx[t];
    assert j in idx;
    var k :| j < k < |bs| && bs[k].level == 0 && Open(bs, k, j);
    assert Keeps(bs, k);
    var u :| 0 <= u < |idx| && idx[u] == k;
    assert t < u;
    assert t + 1 < u ==> idx[t + 1] < idx[u];
    assert Pick(bs, idx)[t + 1] == bs[idx[t + 1]];
  }

  // ---- The code ----

  /** The first size elements of the array are the stack, and delta counts the lines of the blocks left out. */
  ghost predicate Holds(bs: array<Block>, size: nat, delta: int, was: seq<Block>, ps: seq<Position>, n: nat, idx: seq<nat>)
    requires n <= |was| == |ps| && forall s :: 0 <= s < |idx| ==> idx[s] < n
    reads bs
  {
    size == |idx| <= bs.Length && bs[..size] == Pick(was, idx) && delta == Missing(ps, idx, n)
  }

  /** Every block has moved as far as its places before i make it move. */
  ghost predicate Placed(was: seq<Block>, ps: seq<Position>, i: nat)
    requires i <= |was| == |ps|
    reads was
  {
    forall k :: 0 <= k < |was| ==> At(was[k], ps[k], Moves(was, ps, was[k], i))
  }

  /** A block that has moved is as high as before. */
  lemma HeightStays(was: seq<Block>, ps: seq<Position>, i: nat, k: nat)
    requires i <= |was| == |ps| && k < |was| && Placed(was, ps, i)
    ensures was[k].endLine - was[k].startLine + 2 == Height(ps[k])
  {
    assert At(was[k], ps[k], Moves(was, ps, was[k], i));
  }

  lemma PopOne(ps: seq<Position>, idx: seq<nat>, size: nat, n: nat)
    requires n <= |ps| && 0 < size <= |idx|
    requires (forall s, t :: 0 <= s < t < |idx| ==> idx[s] < idx[t]) && forall s :: 0 <= s < |idx| ==> idx[s] < n
    ensures Missing(ps, idx[..size - 1], n) == Missing(ps, idx[..size], n) + Height(ps[idx[size - 1]])
  {
    MissingPop(ps, idx[..size], n);
    assert idx[..size][..size - 1] == idx[..size - 1];
  }

  /** What popping down to size leaves. */
  lemma RemIs(bs: array<Block>, size: nat, was: seq<Block>, ps: seq<Position>, n: nat, idx: seq<nat>, level: nat, size': nat)
    requires level > 0 && Stack(was, n, 0, idx) && |ps| == |was| && size' <= size == |idx| <= bs.Length && bs[..size] == Pick(was, idx)
    requires forall s :: size' <= s < size ==> was[idx[s]].level >= level
    requires size' > 0 ==> was[idx[size' - 1]].level < level
    ensures Stack(was, n, level, idx[..size']) && bs[..size'] == Pick(was, idx[..size'])
  {
    assert bs[..size'] == bs[..size][..size'];
    Popped(was, n, level, idx, size');
  }

  /** The closure rem: pops the headings of that level or deeper, and counts their lines. */
  method Rem(bs: array<Block>, size: nat, delta: int, level: nat, ghost was: seq<Block>, ghost ps: seq<Position>, ghost n: nat, ghost idx: seq<nat>)
    returns (size': nat, delta': int, ghost idx': seq<nat>)
    requires level > 0 && Stack(was, n, 0, idx) && |ps| == |was|
    requires Placed(was, ps, n) && Holds(bs, size, delta, was, ps, n, idx)
    ensures Stack(was, n, level, idx') && Holds(bs, size', delta', was, ps, n, idx')
    ensures size' <= size
  {
    size', delta' := size, delta;
    assert idx[..size] == idx;
    while size' > 0
      invariant 0 <= size' <= size
      invariant forall s :: size' <= s < size ==> was[idx[s]].level >= level
      invariant delta' == Missing(ps, idx[..size'], n)
    {
      var last := bs[size' - 1];
      assert last == bs[..size][size' - 1] == was[idx[size' - 1]];
      if last.level < level {
        break;
      }
      PopOne(ps, idx, size', n);
      HeightStays(was, ps, n, idx[size' - 1]);
      size', delta' := size' - 1, delta' + last.endLine - last.startLine + 2;
    }
    assert size' > 0 ==> bs[size' - 1] == bs[..size][size' - 1];
    idx' := idx[..size'];
    RemIs(bs, size, was, ps, n, idx, level, size');
  }

  /** Moving block i by the lines left out before it. */
  method Place(b: Block, delta: int, ghost was: seq<Block>, ghost ps: seq<Position>, ghost i: nat)
    requires i < |was| == |ps| && was[i] == b && Placed(was, ps, i) && delta == Left(was, ps, i, i)
    modifies b
    ensures Placed(was, ps, i + 1)
  {
    b.AddLines(-delta);
  }

  /** The elements from i on have not been overwritten. */
  ghost predicate Unread(bs: array<Block>, was: seq<Block>, i: nat)
    reads bs
  {
    bs.Length == |was| && forall k :: i <= k < |was| ==> bs[k] == was[k]
  }

  /** append, which overwrites an element that has been read. */
  method Append(bs: array<Block>, size: nat, b: Block, ghost delta: int, ghost was: seq<Block>, ghost ps: seq<Position>, ghost i: nat, ghost idx: seq<nat>)
    requires i < |was| == |ps| && was[i] == b && Unread(bs, was, i) && size <= i
    requires Stack(was, i, b.level, idx) && Holds(bs, size, delta, was, ps, i, idx)
    modifies bs
    ensures Stack(was, i + 1, 0, idx + [i]) && Holds(bs, size + 1, delta, was, ps, i + 1, idx + [i]) && Unread(bs, was, i + 1)
  {
    ghost var before := bs[..size];
    bs[size] := b;
    assert bs[..size + 1] == before + [b];
    Pushed(was, i, idx);
    MissingPush(ps, idx, i, i);
  }

  /** The state of the loop before block i. */
  ghost predicate Before(bs: array<Block>, size: nat, delta: int, was: seq<Block>, ps: seq<Position>, i: nat, idx: seq<nat>)
    reads bs, was
  {
    && i <= |was| == |ps| && size <= i
    && Stack(was, i, 0, idx) && Holds(bs, size, delta, was, ps, i, idx)
    && Unread(bs, was, i) && Placed(was, ps, i)
  }

  /** One round of the loop. */
  method Add(bs: array<Block>, i: nat, size: nat, delta: int, ghost was: seq<Block>, ghost ps: seq<Position>, ghost idx: seq<nat>)
    returns (size': nat, delta': int, ghost idx': seq<nat>)
    requires i < |was| && Before(bs, size, delta, was, ps, i, idx)
    modifies bs, was[i]
    ensures Before(bs, size', delta', was, ps, i + 1, idx')
  {
    size', delta', idx' := size, delta, idx;
    var b := bs[i];
    if b.level > 0 {
      size', delta', idx' := Rem(bs, size, delta, b.level, was, ps, i, idx);
    }
    MissingIsLeft(was, ps, idx', i, i);
    Place(b, delta', was, ps, i);
    Append(bs, size', b, delta', was, ps, i, idx');
    size', idx' := size' + 1, idx' + [i];
  }

  /** The result shares its storage with the argument: it is the first size elements of the array. */
  method RemoveEmptySections(bs: array<Block>) returns (size: nat)
    modifies bs, bs[..]
    ensures size <= bs.Length && bs[..size] == Survivors(old(bs[..]), bs.Length)
    ensures var was, ps := old(bs[..]), old(Positions(bs[..]));
            && (forall j :: 0 <= j < |was| ==> At(was[j], ps[j], Moves(was, ps, was[j], |was|)))
            && (forall j :: 0 <= j < |was| && Keeps(was, j) && (forall i :: 0 <= i < |was| && i != j ==> was[i] != was[j]) ==>
                  At(was[j], ps[j], Shift(was, ps, j)))
  {
    ghost var was, ps := bs[..], Positions(bs[..]);
    size := 0;
    var delta := 0;
    ghost var idx: seq<nat> := [];
    for i := 0 to bs.Length
      invariant Before(bs, size, delta, was, ps, i, idx)
    {
      size, delta, idx := Add(bs, i, size, delta, was, ps, idx);
    }
    size, delta, idx := Rem(bs, size, delta, 1, was, ps, bs.Length, idx);
    LastPop(was, idx);
    forall j | 0 <= j < |was| && Keeps(was, j) && (forall i :: 0 <= i < |was| && i != j ==> was[i] != was[j])
      ensures At(was[j], ps[j], Shift(was, ps, j))
    {
      KeptMoves(was, ps, j);
    }
  }
}
