/** The votes on a CL as of one of its meta commits (maintner/gerrit.go, maintner/git.go). */
module LabelVotes {
  import opened Basics
  import opened Lines

  // ---- One Label line ----

  predicate AllDigits(s: string) {
    forall i :: 0 <= i < |s| ==> '0' <= s[i] <= '9'
  }

  function Decimal(s: string): nat
    requires AllDigits(s)
  {
    if s == [] then 0 else 10 * Decimal(s[..|s| - 1]) + (s[|s| - 1] - '0') as int
  }

  predicate Signed(s: string) {
    s != [] && (s[0] == '+' || s[0] == '-')
  }

  function Unsigned(s: string): string {
    if Signed(s) then s[1..] else s
  }

  /** strconv.ParseInt(s, 10, 8). */
  function ParseInt8(s: string): (r: Option<int>)
    ensures r.Some? ==> -128 <= r.value <= 127
  {
    if Unsigned(s) == [] || !AllDigits(Unsigned(s)) then None
    else
      var n := (if s[0] == '-' then -1 else 1) * Decimal(Unsigned(s));
      if -128 <= n <= 127 then Some(n) else None
  }

  datatype LabelValue = LabelValue(name: string, value: int, whose: string)

  /** The e-mail address between angle brackets. */
  function Bracketed(s: string): string {
    var lt := IndexByte(s, '<');
    if lt == -1 then ""
    else
      var gt := IndexByte(s[lt + 1..], '>');
      if gt == -1 then "" else s[lt + 1..][..gt]
  }

  /** The label and the number of label=number; a number that cannot be read is 0. */
  function ParseVote(w: string): (r: (string, int))
    ensures -128 <= r.1 <= 127
  {
    var eq := IndexByte(w, '=');
    if eq == -1 then (w, 0) else (w[..eq], match ParseInt8(w[eq + 1..]) case Some(n) => n case None => 0)
  }

  /** parseGerritLabelValue. */
  function ParseLabelValue(v: string): LabelValue {
    var space := IndexByte(v, ' ');
    var whose := if space == -1 then "" else Bracketed(v[space + 1..]);
    var p := ParseVote(TrimSpace(if space == -1 then v else v[..space]));
    LabelValue(p.0, p.1, whose)
  }

  // ---- The lines of a footer ----

  /** What a Label line does to the vote of one person on one label. */
  datatype Edit = Vote(name: string, who: string, value: int) | Unvote(name: string, who: string)

  /** The edit a value of a Label line stands for, if any. email is the author's. */
  function EditOf(labelEqVal: string, email: string): Option<Edit> {
    if labelEqVal == "" then None
    else
      var p := ParseLabelValue(labelEqVal);
      var who := if p.whose == "" then email else p.whose;
      if p.name == "" then None
      else if p.name[0] == '-' then Some(Unvote(p.name[1..], who))
      else Some(Vote(p.name, who, p.value))
  }

  const LABEL := "Label: "

  function Listed(e: Option<Edit>): seq<Edit> {
    if e.None? then [] else [e.value]
  }

  /** The edits of a footer, in the order of its lines. */
  function Edits(footer: string, email: string): seq<Edit>
    decreases |footer|
  {
    if footer == "" then []
    else
      var l := LineValueOf(footer, LABEL);
      if !l.ok then []
      else
        RestIsShorter(footer, LABEL);
        Listed(EditOf(l.value, email)) + Edits(l.rest, email)
  }

  // ---- The votes ----

  type Votes = map<string, map<string, int>>

  function Get(votes: Votes, name: string, who: string): Option<int> {
    if name in votes && who in votes[name] then Some(votes[name][who]) else None
  }

  function Apply(votes: Votes, e: Edit): Votes {
    match e
    case Vote(name, who, value) => votes[name := (if name in votes then votes[name] else map[])[who := value]]
    case Unvote(name, who) => if name in votes then votes[name := votes[name] - {who}] else votes
  }

  function ApplyAll(votes: Votes, edits: seq<Edit>): Votes {
    if edits == [] then votes else Apply(ApplyAll(votes, edits[..|edits| - 1]), edits[|edits| - 1])
  }

  /** A new patch set with other changes takes the votes on two labels away. */
  function Reset(votes: Votes): Votes {
    votes - {"Run-TryBot", "TryBot-Result"}
  }

  // ---- Metas ----

  datatype DiffStat = DiffStat(file: string, added: int, deleted: int, binary: bool)

  /** The files of a commit; a missing entry is nil. */
  type Files = seq<Option<DiffStat>>

  predicate Same(a: Files, b: Files) {
    a == b && forall i :: 0 <= i < |a| ==> a[i].Some?
  }

  method SameDiffStat(a: Files, b: Files) returns (same: bool)
    ensures same == Same(a, b)
    ensures same <==> |a| == |b| && forall i :: 0 <= i < |a| ==> a[i].Some? && b[i].Some? && a[i].value == b[i].value
  {
    if |a| != |b| {
      return false;
    }
    for i := 0 to |a|
      invariant a[..i] == b[..i] && forall k :: 0 <= k < i ==> a[k].Some?
    {
      if a[i].None? || b[i].None? {
        return false;
      }
      if a[i] != b[i] {
        return false;
      }
    }
    return true;
  }

  /** A meta commit: its footer and the e-mail address of its author. */
  datatype Meta = Meta(footer: string, email: string)

  predicate IsNew(m: Meta) {
    Index(m.footer, "\nTag: autogenerated:gerrit:newPatchSet\n") != -1
  }

  /** What a meta commit says: the commit of a new patch set, or "", and the edits of its Label lines. */
  datatype Notice = Notice(patchSet: string, edits: seq<Edit>)

  function NoticeOf(m: Meta): Notice {
    Notice(if IsNew(m) then LineValueOf(m.footer, "Commit: ").value else "", Edits(m.footer, m.email))
  }

  function Notices(history: seq<Meta>): (r: seq<Notice>)
    ensures |r| == |history| && forall k :: 0 <= k < |history| ==> r[k] == NoticeOf(history[k])
  {
    seq(|history|, k requires 0 <= k < |history| => NoticeOf(history[k]))
  }

  /** The notice names a commit that the project does not have. */
  predicate Invalid(commits: map<string, Files>, n: Notice) {
    n.patchSet != "" && n.patchSet !in commits
  }

  /** The last patch set that the notices mention. */
  function LastFiles(commits: map<string, Files>, ns: seq<Notice>): Option<Files> {
    if ns == [] then None
    else
      var p := ns[|ns| - 1].patchSet;
      if p in commits && p != "" then Some(commits[p]) else LastFiles(commits, ns[..|ns| - 1])
  }

  /** The notice is of a new patch set with another diff stat than the one before. */
  predicate Changes(commits: map<string, Files>, before: seq<Notice>, n: Notice) {
    var last := LastFiles(commits, before);
    n.patchSet in commits && n.patchSet != "" && last.Some? && !Same(last.value, commits[n.patchSet])
  }

  /** The votes after the last notice. */
  function VotesOf(commits: map<string, Files>, ns: seq<Notice>): Votes {
    if ns == [] then map[] else NextVotes(commits, VotesOf(commits, ns[..|ns| - 1]), ns[..|ns| - 1], ns[|ns| - 1])
  }

  function NextVotes(commits: map<string, Files>, votes: Votes, before: seq<Notice>, n: Notice): Votes {
    ApplyAll(if Changes(commits, before, n) then Reset(votes) else votes, n.edits)
  }

  // ---- The code ----

  lemma ApplyOne(votes: Votes, e: Edit)
    ensures ApplyAll(votes, [e]) == Apply(votes, e)
  {
    assert [e][..0] == [];
  }

  method CastVote(votes: Votes, name: string, who: string, value: int) returns (r: Votes)
    ensures r == Apply(votes, Vote(name, who, value))
  {
    r := votes;
    if name !in r {
      r := r[name := map[]];
    }
    r := r[name := r[name][who := value]];
  }

  method TakeVote(votes: Votes, name: string, who: string) returns (r: Votes)
    ensures r == Apply(votes, Unvote(name, who))
  {
    r := votes;
    if name in r {
      r := r[name := r[name] - {who}];
    }
  }

  /** The edit of one Label line, on the map of maps. */
  method ApplyLine(votes: Votes, labelEqVal: string, email: string) returns (r: Votes)
    ensures r == ApplyAll(votes, Listed(EditOf(labelEqVal, email)))
  {
    r := votes;
    if labelEqVal != "" {
      var p := ParseLabelValue(labelEqVal);
      if p.name != "" {
        var who := if p.whose == "" then email else p.whose;
        ApplyOne(votes, EditOf(labelEqVal, email).value);
        if p.name[0] == '-' {
          r := TakeVote(votes, p.name[1..], who);
        } else {
          r := CastVote(votes, p.name, who, p.value);
        }
      }
    }
  }

  lemma {:induction false} ApplyMore(votes: Votes, a: seq<Edit>, b: seq<Edit>)
    ensures ApplyAll(votes, a + b) == ApplyAll(ApplyAll(votes, a), b)
  {
    if b == [] {
      assert a + b == a;
    } else {
      ApplyMore(votes, a, b[..|b| - 1]);
      assert (a + b)[..|a + b| - 1] == a + b[..|b| - 1];
    }
  }

  /** The loop over the lines of a footer. It ends: each round reads at least a line. */
  method ApplyFooter(votes: Votes, footer: string, email: string, ghost edits: seq<Edit>) returns (r: Votes)
    requires edits == Edits(footer, email)
    ensures r == ApplyAll(votes, edits)
  {
    r := votes;
    var remain := footer;
    while |remain| > 0
      invariant ApplyAll(r, Edits(remain, email)) == ApplyAll(votes, edits)
      decreases |remain|
    {
      var labelEqVal, rest, ok := LineValueOK(remain, LABEL);
      if ok {
        RestIsShorter(remain, LABEL);
        ApplyMore(r, Listed(EditOf(labelEqVal, email)), Edits(rest, email));
      }
      r := ApplyLine(r, labelEqVal, email);
      remain := rest;
    }
  }

  /** The commit of a new patch set. */
  method PatchSet(m: Meta, ghost n: Notice) returns (p: string)
    requires n == NoticeOf(m)
    ensures p == n.patchSet
  {
    p := "";
    if IsNew(m) {
      var commit, _, _ := LineValueOK(m.footer, "Commit: ");
      p := commit;
    }
  }

  /** What a new patch set does to the votes, before the Label lines. */
  method ApplyPatchSet(commits: map<string, Files>, votes: Votes, last: Option<Files>, p: string, ghost before: seq<Notice>, ghost n: Notice)
    returns (r: Votes, last': Option<Files>)
    requires last == LastFiles(commits, before) && n.patchSet == p && !Invalid(commits, n)
    ensures r == if Changes(commits, before, n) then Reset(votes) else votes
    ensures last' == LastFiles(commits, before + [n])
  {
    assert (before + [n])[..|before|] == before;
    r, last' := votes, last;
    if p != "" {
      if last.Some? {
        var same := SameDiffStat(last.value, commits[p]);
        if !same {
          r := Reset(votes);
        }
      }
      last' := Some(commits[p]);
    }
  }

  /** One round of the loop over the metas. It fails on an unknown commit. */
  method ApplyMeta(commits: map<string, Files>, votes: Votes, last: Option<Files>, m: Meta, ghost before: seq<Notice>, ghost n: Notice)
    returns (ok: bool, votes': Votes, last': Option<Files>)
    requires votes == VotesOf(commits, before) && last == LastFiles(commits, before) && n == NoticeOf(m)
    ensures ok == !Invalid(commits, n)
    ensures ok ==> votes' == VotesOf(commits, before + [n]) && last' == LastFiles(commits, before + [n])
  {
    ok, votes', last' := false, votes, last;
    var p := PatchSet(m, n);
    if p == "" || p in commits {
      ok := true;
      votes', last' := ApplyPatchSet(commits, votes, last, p, before, n);
      votes' := ApplyFooter(votes', m.footer, m.email, n.edits);
      assert (before + [n])[..|before|] == before;
    }
  }

  /** ns are the first k of all notices, and they are valid. */
  ghost predicate Said(commits: map<string, Files>, all: seq<Notice>, k: nat, ns: seq<Notice>) {
    k <= |all| && ns == all[..k] && forall n | n in ns :: !Invalid(commits, n)
  }

  lemma SaidMore(commits: map<string, Files>, all: seq<Notice>, k: nat, ns: seq<Notice>)
    requires Said(commits, all, k, ns) && k < |all| && !Invalid(commits, all[k])
    ensures Said(commits, all, k + 1, ns + [all[k]])
  {
    assert all[..k + 1] == all[..k] + [all[k]];
  }

  lemma SaidAll(commits: map<string, Files>, all: seq<Notice>, ns: seq<Notice>)
    requires Said(commits, all, |all|, ns)
    ensures ns == all && !exists k :: 0 <= k < |all| && all[k].patchSet != "" && all[k].patchSet !in commits
  {
    assert all[..|all|] == all;
    forall k | 0 <= k < |all| ensures !Invalid(commits, all[k]) {
      assert all[k] in ns;
    }
  }

  /** GerritMeta.LabelVotes, for the last of the metas. None is the error of a meta with an unknown commit. */
  method LabelVotesOf(commits: map<string, Files>, history: seq<Meta>) returns (r: Option<Votes>)
    ensures var ns := Notices(history);
            && (r.None? <==> exists k :: 0 <= k < |ns| && ns[k].patchSet != "" && ns[k].patchSet !in commits)
            && (r.Some? ==> r.value == VotesOf(commits, ns))
  {
    var votes: Votes, last: Option<Files> := map[], None;
    ghost var all, ns: seq<Notice> := Notices(history), [];
    for k := 0 to |history|
      invariant votes == VotesOf(commits, ns) && last == LastFiles(commits, ns) && Said(commits, all, k, ns)
    {
      ghost var n := NoticeOf(history[k]);
      assert n == all[k];
      var ok;
      ok, votes, last := ApplyMeta(commits, votes, last, history[k], ns, n);
      if !ok {
        return None;
      }
      SaidMore(commits, all, k, ns);
      ns := ns + [n];
    }
    SaidAll(commits, all, ns);
    return Some(votes);
  }

  // ---- The last writer wins ----

  predicate About(e: Edit, name: string, who: string) {
    e.name == name && e.who == who
  }

  /** Some edit is about the person's vote on the label. */
  ghost predicate Touches(edits: seq<Edit>, name: string, who: string) {
    exists l :: 0 <= l < |edits| && About(edits[l], name, who)
  }

  /** The last edit about it votes v. */
  ghost predicate Decides(edits: seq<Edit>, name: string, who: string, v: int) {
    exists l :: 0 <= l < |edits| && edits[l] == Vote(name, who, v) && forall k :: l < k < |edits| ==> !About(edits[k], name, who)
  }

  lemma {:induction false} LastEditWins(votes: Votes, edits: seq<Edit>, name: string, who: string, v: int)
    ensures Get(ApplyAll(votes, edits), name, who) == Some(v) <==>
              Decides(edits, name, who, v) || (!Touches(edits, name, who) && Get(votes, name, who) == Some(v))
  {
    if edits != [] {
      var init, e := edits[..|edits| - 1], edits[|edits| - 1];
      LastEditWins(votes, init, name, who, v);
      OneMoreEdit(init, e, name, who, v);
      assert edits == init + [e];
      assert Get(Apply(ApplyAll(votes, init), e), name, who) ==
        if !About(e, name, who) then Get(ApplyAll(votes, init), name, who) else if e.Vote? then Some(e.value) else None;
    }
  }

  lemma OneMoreEdit(edits: seq<Edit>, e: Edit, name: string, who: string, v: int)
    ensures Touches(edits + [e], name, who) <==> Touches(edits, name, who) || About(e, name, who)
    ensures Decides(edits + [e], name, who, v) <==> if About(e, name, who) then e == Vote(name, who, v) else Decides(edits, name, who, v)
  {
    var all := edits + [e];
    assert all[|edits|] == e;
    assert forall l :: 0 <= l < |edits| ==> all[l] == edits[l];
    if Touches(edits, name, who) {
      var l :| 0 <= l < |edits| && About(edits[l], name, who);
      assert About(all[l], name, who);
    }
    if !About(e, name, who) && Decides(edits, name, who, v) {
      var l :| 0 <= l < |edits| && edits[l] == Vote(name, who, v) && forall k :: l < k < |edits| ==> !About(edits[k], name, who);
      assert all[l] == edits[l];
    }
  }

  /** Notice k is the last before j that names a commit of the project. */
  ghost predicate LastNamed(commits: map<string, Files>, ns: seq<Notice>, j: nat, k: int) {
    && 0 <= k < j <= |ns| && ns[k].patchSet != "" && ns[k].patchSet in commits
    && forall i :: k < i < j ==> ns[i].patchSet == "" || ns[i].patchSet !in commits
  }

  lemma {:induction false} LastFilesIs(commits: map<string, Files>, ns: seq<Notice>, j: nat)
    requires j <= |ns|
    ensures var last := LastFiles(commits, ns[..j]);
            && (forall k :: LastNamed(commits, ns, j, k) ==> last == Some(commits[ns[k].patchSet]))
            && (last.Some? ==> exists k :: LastNamed(commits, ns, j, k))
  {
    if j > 0 {
      LastFilesIs(commits, ns, j - 1);
      assert ns[..j][..j - 1] == ns[..j - 1];
      var p := ns[j - 1].patchSet;
      if p != "" && p in commits {
        assert LastNamed(commits, ns, j, j - 1);
        assert forall k :: LastNamed(commits, ns, j, k) ==> k == j - 1;
      } else {
        assert forall k :: LastNamed(commits, ns, j, k) <==> LastNamed(commits, ns, j - 1, k);
        if LastFiles(commits, ns[..j - 1]).Some? {
          var k :| LastNamed(commits, ns, j - 1, k);
          assert LastNamed(commits, ns, j, k);
        }
      }
    }
  }

  /** A notice changes the patch set exactly when the last one named before it has another diff stat. */
  lemma ChangesIs(commits: map<string, Files>, ns: seq<Notice>, j: nat)
    requires j < |ns|
    ensures Changes(commits, ns[..j], ns[j]) <==>
              && ns[j].patchSet != "" && ns[j].patchSet in commits
              && exists k :: LastNamed(commits, ns, j, k) && !Same(commits[ns[k].patchSet], commits[ns[j].patchSet])
  {
    LastFilesIs(commits, ns, j);
  }

  /** A vote on the label is neither replaced nor taken away by notice j. */
  ghost predicate Stands(commits: map<string, Files>, ns: seq<Notice>, j: nat, name: string, who: string)
    requires j < |ns|
  {
    && !Touches(ns[j].edits, name, who)
    && !((name == "Run-TryBot" || name == "TryBot-Result") && Changes(commits, ns[..j], ns[j]))
  }

  ghost predicate CastIn(commits: map<string, Files>, ns: seq<Notice>, k: nat, name: string, who: string, v: int)
    requires k < |ns|
  {
    Decides(ns[k].edits, name, who, v) && forall j :: k < j < |ns| ==> Stands(commits, ns, j, name, who)
  }

  /**
   A person's vote on a label is v exactly when, in some meta, the last Label line about it votes v, no later meta
   has a line about it, and, for the two trybot labels, no later meta is a new patch set with another diff stat.
   */
  lemma {:induction false} LastWriterWins(commits: map<string, Files>, ns: seq<Notice>, name: string, who: string, v: int)
    ensures Get(VotesOf(commits, ns), name, who) == Some(v) <==>
              exists k :: 0 <= k < |ns| && CastIn(commits, ns, k, name, who, v)
  {
    if ns != [] {
      var n := |ns| - 1;
      var init := ns[..n];
      LastWriterWins(commits, init, name, who, v);
      var before := VotesOf(commits, init);
      LastEditWins(if Changes(commits, init, ns[n]) then Reset(before) else before, ns[n].edits, name, who, v);
      forall k | 0 <= k < n
        ensures CastIn(commits, ns, k, name, who, v) <==> CastIn(commits, init, k, name, who, v) && Stands(commits, ns, n, name, who)
      {
        OneMoreNotice(commits, ns, k, name, who, v);
      }
      assert CastIn(commits, ns, n, name, who, v) <==> Decides(ns[n].edits, name, who, v);
    }
  }

  lemma OneMoreNotice(commits: map<string, Files>, ns: seq<Notice>, k: nat, name: string, who: string, v: int)
    requires k + 1 < |ns|
    ensures var n := |ns| - 1;
            CastIn(commits, ns, k, name, who, v) <==> CastIn(commits, ns[..n], k, name, who, v) && Stands(commits, ns, n, name, who)
  {
    var n := |ns| - 1;
    forall j | k < j < n ensures Stands(commits, ns, j, name, who) <==> Stands(commits, ns[..n], j, name, who) {
      assert ns[..n][..j] == ns[..j];
    }
  }

  // ---- Reading back a Label line ----

  lemma IndexByteAt(s: string, c: char, i: nat)
    requires i < |s| && s[i] == c && c !in s[..i]
    ensures IndexByte(s, c) == i
  {
    IndexByteIsFirst(s, c);
    var j := IndexByte(s, c);
    var k := if i < j then i else 0;
    assert s[..if 0 <= j then j else 0][..0] == [];
    assert 0 < j ==> s[..j][k] == s[k];
    var l := if 0 <= j < i then j else 0;
    assert 0 < i ==> s[..i][l] == s[l];
  }

  lemma Untrimmed(s: string)
    requires s != "" && !IsSpace(s[0]) && !IsSpace(s[|s| - 1])
    ensures TrimSpace(s) == s
  {
  }

  /** A number as it is written, a positive one with or without its sign. */
  function Numeral(n: int, plus: bool): string {
    if n < 0 then "-" + Digits(-n) else if plus then "+" + Digits(n) else Digits(n)
  }

  lemma {:induction false} DigitsReadBack(v: nat)
    ensures AllDigits(Digits(v)) && Decimal(Digits(v)) == v
  {
    if v < 10 {
      assert Decimal([Digit(v)][..0]) == 0;
    } else {
      DigitsReadBack(v / 10);
      assert Digits(v)[..|Digits(v)| - 1] == Digits(v / 10);
    }
  }

  /** Leading zeros do not count. */
  lemma {:induction false} LeadingZero(s: string)
    requires AllDigits(s)
    ensures Decimal("0" + s) == Decimal(s)
  {
    if s == "" {
      assert "0" + s == "0" && "0"[..0] == "";
    } else {
      LeadingZero(s[..|s| - 1]);
      assert ("0" + s)[..|s|] == "0" + s[..|s| - 1];
    }
  }

  lemma UnsignedReadsBack(v: nat)
    ensures ParseInt8(Digits(v)) == if v <= 127 then Some(v) else None
  {
    DigitsReadBack(v);
    var s := Digits(v);
    assert '0' <= s[0] <= '9' && Unsigned(s) == s;
  }

  lemma SignedReadsBack(sign: char, v: nat)
    requires sign == '+' || sign == '-'
    ensures var n: int := if sign == '-' then -(v as int) else v; ParseInt8([sign] + Digits(v)) == if -128 <= n <= 127 then Some(n) else None
  {
    DigitsReadBack(v);
    var s := [sign] + Digits(v);
    assert s[1..] == Digits(v) && Unsigned(s) == Digits(v);
  }

  /** Every number is read back, and refused exactly if it is no int8. */
  lemma NumeralReadsBack(n: int, plus: bool)
    ensures ParseInt8(Numeral(n, plus)) == if -128 <= n <= 127 then Some(n) else None
  {
    if n < 0 {
      SignedReadsBack('-', -n);
      assert Numeral(n, plus) == ['-'] + Digits(-n);
    } else if plus {
      SignedReadsBack('+', n);
      assert Numeral(n, plus) == ['+'] + Digits(n);
    } else {
      UnsignedReadsBack(n);
    }
  }

  /** Only signs and digits are read. */
  lemma OnlyNumbers(s: string)
    requires ParseInt8(s).Some?
    ensures var t := if s[0] == '+' || s[0] == '-' then s[1..] else s; t != "" && forall i :: 0 <= i < |t| ==> '0' <= t[i] <= '9'
  {
  }

  /** A line as Gerrit writes it: label=number Name <address>. */
  function Written(name: string, number: string, person: string, address: string): string {
    name + "=" + number + " " + (person + "<" + address + ">")
  }

  predicate Word(s: string) {
    s != "" && forall i :: 0 <= i < |s| ==> !IsSpace(s[i]) && s[i] != '='
  }

  lemma NumberIsWord(number: string)
    requires ParseInt8(number).Some?
    ensures Word(number)
  {
    assert Signed(number) ==> forall i :: 1 <= i < |number| ==> number[i] == number[1..][i - 1];
    assert forall i :: 1 <= i < |number| ==> '0' <= number[i] <= '9';
    assert number[0] == '+' || number[0] == '-' || '0' <= number[0] <= '9';
  }

  lemma BracketedBack(person: string, address: string)
    requires '<' !in person && '>' !in address
    ensures Bracketed(person + "<" + address + ">") == address
  {
    var s := person + "<" + address + ">";
    assert s[..|person|] == person;
    IndexByteAt(s, '<', |person|);
    var t := address + ">";
    assert s[|person| + 1..] == t && t[..|address|] == address;
    IndexByteAt(t, '>', |address|);
  }

  lemma ParseVoteBack(name: string, number: string)
    requires Word(name) && ParseInt8(number).Some?
    ensures ParseVote(name + "=" + number) == (name, ParseInt8(number).value)
  {
    var w := name + "=" + number;
    assert w[..|name|] == name && w[|name| + 1..] == number;
    IndexByteAt(w, '=', |name|);
  }

  /** A number that cannot be read votes 0. */
  lemma UnreadableVote(name: string, number: string)
    requires Word(name) && ParseInt8(number).None?
    ensures ParseVote(name + "=" + number) == (name, 0)
  {
    var w := name + "=" + number;
    assert w[..|name|] == name && w[|name| + 1..] == number;
    IndexByteAt(w, '=', |name|);
  }

  /** What comes before the space, and what comes after it. */
  lemma ParseParts(w: string, person: string, address: string)
    requires w != "" && (forall i :: 0 <= i < |w| ==> !IsSpace(w[i])) && '<' !in person && '>' !in address
    ensures ParseLabelValue(w + " " + (person + "<" + address + ">")) == LabelValue(ParseVote(w).0, ParseVote(w).1, address)
  {
    var who := person + "<" + address + ">";
    var v := w + " " + who;
    assert v[..|w|] == w && v[|w|] == ' ' && v[|w| + 1..] == who;
    IndexByteAt(v, ' ', |w|);
    BracketedBack(person, address);
    Untrimmed(w);
  }

  /** The word label=n. */
  lemma VoteReadsBack(name: string, n: int, plus: bool)
    requires Word(name) && -128 <= n <= 127
    ensures var w := name + "=" + Numeral(n, plus);
            ParseVote(w) == (name, n) && w != "" && forall i :: 0 <= i < |w| ==> !IsSpace(w[i])
  {
    NumeralReadsBack(n, plus);
    NumberIsWord(Numeral(n, plus));
    ParseVoteBack(name, Numeral(n, plus));
  }

  /** Parsing a written line gives back its label, its number and its address. */
  lemma ParseWritten(name: string, n: int, plus: bool, person: string, address: string)
    requires Word(name) && -128 <= n <= 127 && '<' !in person && '>' !in address
    ensures ParseLabelValue(Written(name, Numeral(n, plus), person, address)) == LabelValue(name, n, address)
  {
    VoteReadsBack(name, n, plus);
    ParseParts(name + "=" + Numeral(n, plus), person, address);
  }

  lemma EditIs(v: string, name: string, n: int, whose: string, email: string)
    requires v != "" && ParseLabelValue(v) == LabelValue(name, n, whose) && name != "" && name[0] != '-'
    ensures EditOf(v, email) == Some(Vote(name, if whose == "" then email else whose, n))
  {
  }

  /** A written vote is credited to the person whose address it gives, and to the author if it gives none. */
  lemma VoteIsCredited(name: string, n: int, plus: bool, person: string, address: string, email: string)
    requires Word(name) && name[0] != '-' && -128 <= n <= 127 && '<' !in person && '>' !in address
    ensures EditOf(Written(name, Numeral(n, plus), person, address), email) == Some(Vote(name, if address == "" then email else address, n))
  {
    ParseWritten(name, n, plus, person, address);
    EditIs(Written(name, Numeral(n, plus), person, address), name, n, address, email);
  }

  /** So is a line that names nobody. */
  lemma BareVote(name: string, n: int, plus: bool, email: string)
    requires Word(name) && name[0] != '-' && -128 <= n <= 127
    ensures EditOf(name + "=" + Numeral(n, plus), email) == Some(Vote(name, email, n))
  {
    VoteReadsBack(name, n, plus);
    BareParses(name + "=" + Numeral(n, plus));
    EditIs(name + "=" + Numeral(n, plus), name, n, "", email);
  }

  /** A label without a number votes 0, and with a dash it takes the author's vote away. */
  lemma BareLabel(name: string, email: string)
    requires Word(name)
    ensures name[0] != '-' ==> EditOf(name, email) == Some(Vote(name, email, 0))
    ensures EditOf("-" + name, email) == Some(Unvote(name, email))
  {
    var w := "-" + name;
    BareParses(name);
    BareParses(w);
    IndexByteIsFirst(name, '=');
    IndexByteIsFirst(w, '=');
    assert w[1..] == name;
  }

  lemma BareParses(w: string)
    requires w != "" && forall i :: 0 <= i < |w| ==> !IsSpace(w[i])
    ensures ParseLabelValue(w) == LabelValue(ParseVote(w).0, ParseVote(w).1, "")
  {
    IndexByteIsFirst(w, ' ');
    Untrimmed(w);
  }

  /** A meta tells of a new patch set exactly if it has that tag; the commit is that of its Commit line. */
  lemma PatchSetIs(m: Meta)
    ensures var tagged := exists i :: Occurs(m.footer, "\nTag: autogenerated:gerrit:newPatchSet\n", i);
            NoticeOf(m).patchSet == if tagged then LineValueOf(m.footer, "Commit: ").value else ""
  {
    var tag := "\nTag: autogenerated:gerrit:newPatchSet\n";
    if i :| Occurs(m.footer, tag, i) {
      IndexFromIsFirst(m.footer, tag, 0, i);
    }
  }

  /** The edits of a footer are those of its Label lines, in order. */
  lemma EditsOfLine(value: string, rest: string, email: string)
    requires '\n' !in value
    ensures Edits(LABEL + value + "\n" + rest, email) == Listed(EditOf(TrimSpace(value + "\n"), email)) + Edits(rest, email)
  {
    LineReadsBack(LABEL, value, rest);
  }

  /** A written removal, -label Name <address>, takes away that person's vote, whoever the author is. */
  lemma ParseRemoval(name: string, person: string, address: string, email: string)
    requires Word(name) && '<' !in person && '>' !in address && address != ""
    ensures EditOf("-" + name + " " + (person + "<" + address + ">"), email) == Some(Unvote(name, address))
  {
    var w := "-" + name;
    ParseParts(w, person, address);
    IndexByteIsFirst(w, '=');
    assert w[1..] == name;
  }
}
