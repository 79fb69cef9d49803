/** Processing a diff makes the issue what GitHub says it is, and then there is no diff any more. */
module GitHubLaws {
  import opened Basics
  import opened GitHubSpec

  /** The users that an issue of the API mentions. */
  ghost predicate Mentions(b: ApiIssue, u: ApiUser) {
    b.user == Some(u) || b.closedBy == Some(u) || u in b.assignees
  }

  /** What GitHub guarantees: non-zero distinct IDs, a title, and one non-empty login for each user. */
  ghost predicate Sane(b: ApiIssue) {
    && b.number != 0 && b.title != ""
    && (b.milestone.Some? ==> b.milestone.value.id != 0)
    && (forall u | Mentions(b, u) :: u.login != "")
    && (forall u, v | Mentions(b, u) && Mentions(b, v) && u.id == v.id :: u.login == v.login)
    && (forall i :: 0 <= i < |b.labels| ==> b.labels[i].id != 0)
    && (forall i, j :: 0 <= i < j < |b.labels| ==> b.labels[i].id != b.labels[j].id)
  }

  /** The login in g is already that of the user on record, who is another user. */
  predicate TakenOver(users: map<int, string>, existing: Option<int>, g: Option<ApiUser>) {
    existing.Some? && g.Some? && Knows(users, ApiUser(existing.value, g.value.login)) && existing.value != g.value.id
  }

  /** A login that the issue's author or closer already has in memory belongs to the same user in b. */
  predicate SameLoginSameUser(mem: Memory, b: ApiIssue) {
    var a := Before(mem, b.number);
    !TakenOver(mem.users, a.user, b.user) && !TakenOver(mem.users, a.closedBy, b.closedBy)
  }

  /** newMutationFromIssue, then addMutation: the memory after polling b. */
  ghost function Polled(mem: Memory, b: ApiIssue, m: IssueMutation): Memory
    requires Wired(mem)
  {
    if HasChanges(mem, b, m) then Process(mem, m) else mem
  }

  function TimeOr(t: int, was: int): int {
    if t != ZERO_TIME then t else was
  }

  function UserOr(u: Option<ApiUser>, was: Option<int>): Option<int> {
    match u
    case None => was
    case Some(u) => Some(u.id)
  }

  /** The issue's own fields are those of b, where b says anything. */
  ghost predicate FieldsAre(gi: Issue, b: ApiIssue, a: Issue) {
    && !gi.notExist
    && gi.updated == TimeOr(b.updatedAt, a.updated)
    && gi.closedAt == TimeOr(b.closedAt, a.closedAt)
    && gi.user == UserOr(b.user, a.user)
    && gi.closedBy == UserOr(b.closedBy, a.closedBy)
    && TextsAre(gi, b)
    && (set id | id in gi.assignees) == UserIds(b.assignees)
    && gi.labels == LabelIds(b.labels)
    && gi.pullRequest == (a.pullRequest || b.isPullRequest)
  }

  ghost predicate TextsAre(gi: Issue, b: ApiIssue) {
    && gi.body == b.body && gi.title == b.title
    && gi.milestone == (if b.milestone.Some? then InMilestone(b.milestone.value.id) else NoMilestone)
    && gi.closed == b.isClosed && gi.locked == b.isLocked
  }

  /** The login u has in b is in the table. */
  predicate Knows(users: map<int, string>, u: ApiUser) {
    u.id in users && users[u.id] == u.login
  }

  /** The issue in memory is the one GitHub reports. What GitHub leaves out stays as it was in a. */
  ghost predicate Became(mem: Memory, b: ApiIssue, a: Issue) {
    && b.number in mem.issues
    && FieldsAre(mem.issues[b.number], b, a)
    && (forall u | Mentions(b, u) :: Knows(mem.users, u))
  }

  // ---- Labels ----

  /** Pigeonhole: as many distinct labels, all of them known, are all the labels there are. */
  lemma FastPathIsSound(labels: set<int>, ls: seq<ApiLabel>)
    requires |labels| == |ls| && forall i :: 0 <= i < |ls| ==> ls[i].id in labels
    requires forall i, j :: 0 <= i < j < |ls| ==> ls[i].id != ls[j].id
    ensures labels == LabelIds(ls)
  {
    DistinctCount(ls);
    assert LabelIds(ls) <= labels;
    SubsetOfSameSize(LabelIds(ls), labels);
  }

  lemma {:induction false} DistinctCount(ls: seq<ApiLabel>)
    requires forall i, j :: 0 <= i < j < |ls| ==> ls[i].id != ls[j].id
    ensures |LabelIds(ls)| == |ls|
  {
    if ls != [] {
      var rest, l := ls[..|ls| - 1], ls[|ls| - 1];
      DistinctCount(rest);
      assert ls == rest + [l];
      assert LabelIds(ls) == LabelIds(rest) + {l.id};
      assert l.id !in LabelIds(rest);
    }
  }

  lemma SubsetOfSameSize(a: set<int>, b: set<int>)
    requires a <= b && |a| == |b|
    ensures a == b
  {
    assert |b - a| == |b| - |a|;
  }

  lemma NewLabelIds(known: set<int>, ls: seq<ApiLabel>)
    requires forall i, j :: 0 <= i < j < |ls| ==> ls[i].id != ls[j].id
    ensures (set l | l in NewLabels(known, ls) :: l.id) == LabelIds(ls) - known
  {
    forall id | id in LabelIds(ls) - known ensures id in set l | l in NewLabels(known, ls) :: l.id {
      var l :| l in ls && l.id == id;
      var i :| 0 <= i < |ls| && ls[i] == l;
      assert ls[i] in NewLabels(known, ls);
    }
  }

  // ---- Assignees ----

  lemma {:induction false} DeletedAre(existing: seq<int>, current: seq<ApiUser>)
    ensures forall id :: id in DeletedAssignees(existing, current) <==> id in existing && id !in UserIds(current)
  {
    if existing != [] {
      DeletedAre(existing[..|existing| - 1], current);
      assert existing == existing[..|existing| - 1] + [existing[|existing| - 1]];
    }
  }

  lemma {:induction false} NewAre(users: map<int, string>, existing: seq<int>, current: seq<ApiUser>)
    requires forall id | id in existing :: id in users
    ensures forall p :: p in NewAssignees(users, existing, current) <==>
              ApiUser(p.id, p.login) in current && !(p.id in existing && users[p.id] == p.login)
  {
    if current != [] {
      NewAre(users, existing, current[..|current| - 1]);
      assert current == current[..|current| - 1] + [current[|current| - 1]];
    }
  }

  lemma {:induction false} AddedAre(existing: seq<int>, us: seq<UserProto>)
    ensures forall id :: id in Added(existing, us) <==> id in existing || exists p :: p in us && p.id == id
  {
    if us != [] {
      AddedAre(existing, us[..|us| - 1]);
      assert us == us[..|us| - 1] + [us[|us| - 1]];
    }
  }

  lemma {:induction false} WithoutAre(ids: seq<int>, gone: seq<int>)
    ensures forall id :: id in Without(ids, gone) <==> id in ids && id !in gone
  {
    if ids != [] {
      WithoutAre(ids[..|ids| - 1], gone);
      assert ids == ids[..|ids| - 1] + [ids[|ids| - 1]];
    }
  }

  lemma AddedIds(users: map<int, string>, existing: seq<int>, current: seq<ApiUser>, id: int)
    requires forall id | id in existing :: id in users
    ensures id in Added(existing, NewAssignees(users, existing, current)) <==> id in existing || id in UserIds(current)
  {
    var more := NewAssignees(users, existing, current);
    NewAre(users, existing, current);
    AddedAre(existing, more);
    if id !in existing {
      if id in UserIds(current) {
        var u :| u in current && u.id == id;
        assert UserProto(u.id, u.login) in more;
      }
      if p :| p in more && p.id == id {
        assert ApiUser(p.id, p.login) in current;
      }
    }
  }

  /** The assignees after a diff has been processed are those of the API, whatever they were. */
  lemma AssigneesBecome(users: map<int, string>, existing: seq<int>, current: seq<ApiUser>)
    requires forall id | id in existing :: id in users
    ensures var all := Added(existing, NewAssignees(users, existing, current));
            (set id | id in Without(all, DeletedAssignees(existing, current))) == UserIds(current)
  {
    var all := Added(existing, NewAssignees(users, existing, current));
    DeletedAre(existing, current);
    WithoutAre(all, DeletedAssignees(existing, current));
    forall id ensures id in Without(all, DeletedAssignees(existing, current)) <==> id in UserIds(current) {
      AddedIds(users, existing, current, id);
    }
  }

  /** Assignees keep their order, and new ones come last in the order they are told. */
  lemma AssigneeOrder(existing: seq<int>, us: seq<UserProto>)
    ensures Added(existing, []) == existing
    ensures forall u :: Added(existing, us + [u]) == Added(existing, us) + if u.id in existing then [] else [u.id]
  {
    forall u ensures Added(existing, us + [u]) == Added(existing, us) + if u.id in existing then [] else [u.id] {
      assert (us + [u])[..|us|] == us;
    }
  }

  /** So do the users to report, and those to delete. */
  lemma {:induction false} ReportedInOrder(users: map<int, string>, existing: seq<int>, a: seq<ApiUser>, b: seq<ApiUser>)
    requires forall id | id in existing :: id in users
    ensures NewAssignees(users, existing, a + b) == NewAssignees(users, existing, a) + NewAssignees(users, existing, b)
  {
    if b == [] {
      assert a + b == a;
    } else {
      ReportedInOrder(users, existing, a, b[..|b| - 1]);
      assert (a + b)[..|a + b| - 1] == a + b[..|b| - 1];
    }
  }

  lemma {:induction false} DeletedInOrder(a: seq<int>, b: seq<int>, current: seq<ApiUser>)
    ensures DeletedAssignees(a + b, current) == DeletedAssignees(a, current) + DeletedAssignees(b, current)
  {
    if b == [] {
      assert a + b == a;
    } else {
      DeletedInOrder(a, b[..|b| - 1], current);
      assert (a + b)[..|a + b| - 1] == a + b[..|b| - 1];
    }
  }

  lemma {:induction false} WithoutInOrder(a: seq<int>, b: seq<int>, gone: seq<int>)
    ensures Without(a + b, gone) == Without(a, gone) + Without(b, gone)
  {
    if b == [] {
      assert a + b == a;
    } else {
      WithoutInOrder(a, b[..|b| - 1], gone);
      assert (a + b)[..|a + b| - 1] == a + b[..|b| - 1];
    }
  }

  lemma WithoutOne(id: int, gone: seq<int>)
    ensures Without([id], gone) == if id in gone then [] else [id]
  {
    assert [id][..0] == [];
  }

  // ---- Logins ----

  /** A user gets the login that is told, a known one keeps its login if none is, and nobody else changes. */
  lemma LearnIs(users: map<int, string>, p: UserProto, id: int)
    ensures p.id in Learn(users, p)
    ensures p.login != "" ==> Learn(users, p)[p.id] == p.login
    ensures p.login == "" && p.id in users ==> Learn(users, p) == users
    ensures id != p.id ==> (id in Learn(users, p) <==> id in users) && (id in users ==> Learn(users, p)[id] == users[id])
  {
  }

  /** The proto says of its user what b says. */
  ghost predicate Quotes(b: ApiIssue, p: UserProto) {
    Mentions(b, ApiUser(p.id, p.login))
  }

  lemma LearnKeeps(users: map<int, string>, b: ApiIssue, p: UserProto, u: ApiUser)
    requires Sane(b) && Quotes(b, p) && Mentions(b, u) && (Knows(users, u) || u == ApiUser(p.id, p.login))
    ensures Knows(Learn(users, p), u)
  {
    assert Mentions(b, ApiUser(p.id, p.login));
  }

  lemma {:induction false} LearnAllKeeps(users: map<int, string>, b: ApiIssue, ps: seq<UserProto>, u: ApiUser)
    requires Sane(b) && Mentions(b, u) && (forall p | p in ps :: Quotes(b, p))
    requires Knows(users, u) || UserProto(u.id, u.login) in ps
    ensures Knows(LearnAll(users, ps), u)
  {
    if ps != [] {
      var rest, p := ps[..|ps| - 1], ps[|ps| - 1];
      assert ps == rest + [p];
      if Knows(users, u) || UserProto(u.id, u.login) in rest {
        LearnAllKeeps(users, b, rest, u);
      }
      LearnKeeps(LearnAll(users, rest), b, p, u);
    }
  }

  lemma DiffUserQuotes(users: map<int, string>, existing: Option<int>, g: Option<ApiUser>, b: ApiIssue)
    requires existing.Some? ==> existing.value in users
    requires g.Some? ==> Mentions(b, g.value)
    ensures var p := DiffUser(users, existing, g); p.Some? ==> Quotes(b, p.value)
  {
  }

  /** A user of b who has the login that b gives, or is told it, has it after a diff has been processed. */
  lemma LearnsAll(mem: Memory, b: ApiIssue, m: IssueMutation, u: ApiUser)
    requires Wired(mem) && Sane(b) && IsDiff(mem, b, m) && Mentions(b, u)
    requires var p := UserProto(u.id, u.login); Knows(mem.users, u) || m.user == Some(p) || m.closedBy == Some(p) || p in m.assignees
    ensures Knows(LearnAll(LearnOption(LearnOption(mem.users, m.user), m.closedBy), m.assignees), u)
  {
    var a := Before(mem, b.number);
    DiffUserQuotes(mem.users, a.user, b.user, b);
    DiffUserQuotes(mem.users, a.closedBy, b.closedBy, b);
    NewAre(mem.users, a.assignees, b.assignees);
    forall p | p in m.assignees ensures Quotes(b, p) {
      assert ApiUser(p.id, p.login) in b.assignees;
    }
    var p, t := UserProto(u.id, u.login), LearnOption(mem.users, m.user);
    if m.user.Some? && (Knows(mem.users, u) || m.user == Some(p)) {
      LearnKeeps(mem.users, b, m.user.value, u);
    }
    if m.closedBy.Some? && (Knows(t, u) || m.closedBy == Some(p)) {
      LearnKeeps(t, b, m.closedBy.value, u);
    }
    LearnAllKeeps(LearnOption(t, m.closedBy), b, m.assignees, u);
  }

  /** After a diff has been processed every user of b has the login that b gives it. */
  lemma LoginsBecome(mem: Memory, b: ApiIssue, m: IssueMutation, u: ApiUser)
    requires Wired(mem) && Sane(b) && SameLoginSameUser(mem, b) && IsDiff(mem, b, m) && Mentions(b, u)
    ensures Knows(LearnAll(LearnOption(LearnOption(mem.users, m.user), m.closedBy), m.assignees), u)
  {
    var a := Before(mem, b.number);
    NewAre(mem.users, a.assignees, b.assignees);
    if u in b.assignees && !Knows(mem.users, u) {
      assert UserProto(u.id, u.login) in m.assignees;
    }
    LearnsAll(mem, b, m, u);
  }

  // ---- The two laws ----

  lemma LabelsBecome(a: Issue, b: ApiIssue, m: IssueMutation, known: bool)
    requires Sane(b)
    requires IsLabelDiff(known, a.labels, b.labels, m.removeLabel, m.addLabel)
    ensures a.labels - (set id | id in m.removeLabel) + LabelIds(m.addLabel) == LabelIds(b.labels)
  {
    if known && SameLabels(a.labels, b.labels) {
      FastPathIsSound(a.labels, b.labels);
    } else {
      NewLabelIds(a.labels, b.labels);
      var new_ := set l | l in m.addLabel;
      assert LabelIds(m.addLabel) == set l | l in new_ :: l.id;
    }
  }

  /** Applying the diff to the issue it was computed from. */
  lemma AmendedBecomes(mem: Memory, b: ApiIssue, m: IssueMutation, gi: Issue)
    requires Wired(mem) && Sane(b) && SameLoginSameUser(mem, b) && IsDiff(mem, b, m)
    requires gi == Before(mem, b.number).(created := gi.created, notExist := false)
    ensures FieldsAre(Amended(gi, m), b, Before(mem, b.number))
  {
    var a := Before(mem, b.number);
    assert (set id | id in Amended(gi, m).assignees) == UserIds(b.assignees) by {
      AssigneesBecome(mem.users, a.assignees, b.assignees);
    }
    assert Amended(gi, m).labels == LabelIds(b.labels) by {
      LabelsBecome(a, b, m, b.number in mem.issues);
    }
    TextsBecome(mem, b, m, gi);
  }

  lemma TextsBecome(mem: Memory, b: ApiIssue, m: IssueMutation, gi: Issue)
    requires Wired(mem) && b.title != "" && (b.milestone.Some? ==> b.milestone.value.id != 0) && IsDiff(mem, b, m)
    requires gi == Before(mem, b.number).(created := gi.created, notExist := false)
    ensures TextsAre(Amended(gi, m), b)
  {
  }

  /** A mutation without changes leaves the issue's fields as they are. */
  lemma NothingAmended(mem: Memory, b: ApiIssue, m: IssueMutation)
    requires Wired(mem) && IsDiff(mem, b, m) && !HasChanges(mem, b, m)
    ensures var gi, gi' := mem.issues[b.number], Amended(mem.issues[b.number], m);
            && gi == gi'.(assignees := gi.assignees, pullRequest := gi.pullRequest)
            && (set id | id in gi.assignees) == (set id | id in gi'.assignees)
  {
    var gi := mem.issues[b.number];
    assert Added(gi.assignees, m.assignees) == gi.assignees && m.deletedAssignees == [];
    WithoutAre(gi.assignees, m.deletedAssignees);
    assert forall id :: id in gi.assignees <==> id in Amended(gi, m).assignees;
  }

  // ---- When there is something to report ----

  lemma {:induction false} NoneDeleted(existing: seq<int>, current: seq<ApiUser>)
    requires forall id | id in existing :: id in UserIds(current)
    ensures DeletedAssignees(existing, current) == []
  {
    if existing != [] {
      NoneDeleted(existing[..|existing| - 1], current);
      assert existing[|existing| - 1] in existing;
    }
  }

  lemma {:induction false} NoneNew(users: map<int, string>, existing: seq<int>, current: seq<ApiUser>)
    requires forall id | id in existing :: id in users
    requires forall u | u in current :: u.id in existing && Knows(users, u)
    ensures NewAssignees(users, existing, current) == []
  {
    if current != [] {
      NoneNew(users, existing, current[..|current| - 1]);
      assert current[|current| - 1] in current;
    }
  }

  lemma NoAssigneeDiff(users: map<int, string>, existing: seq<int>, current: seq<ApiUser>)
    requires forall id | id in existing :: id in users
    requires (set id | id in existing) == UserIds(current) && forall u | u in current :: Knows(users, u)
    ensures NewAssignees(users, existing, current) == [] && DeletedAssignees(existing, current) == []
  {
    forall id | id in existing ensures id in UserIds(current) {
      assert id in set x | x in existing;
    }
    forall u | u in current ensures u.id in existing {
      assert u.id in UserIds(current);
    }
    NoneNew(users, existing, current);
    NoneDeleted(existing, current);
  }

  /** The fast path catches every issue whose labels are up to date. */
  lemma NoLabelDiff(gi: Issue, b: ApiIssue)
    requires Sane(b) && gi.labels == LabelIds(b.labels)
    ensures SameLabels(gi.labels, b.labels)
  {
    DistinctCount(b.labels);
    forall i | 0 <= i < |b.labels| ensures b.labels[i].id in gi.labels {
      assert b.labels[i] in b.labels;
    }
  }

  /** The user on record has the login of g. */
  predicate HasLogin(users: map<int, string>, existing: Option<int>, g: Option<ApiUser>) {
    g.Some? ==> existing.Some? && Knows(users, ApiUser(existing.value, g.value.login))
  }

  /**
   Memory agrees with b already, as far as a diff can see: whether or not the issue is recorded as existing, its fields are
   those of b, author and closer have the logins that b gives, and the creation time is the recorded one or is missing.
   */
  ghost predicate Current(mem: Memory, b: ApiIssue) {
    && b.number in mem.issues
    && CurrentIssue(mem.users, mem.issues[b.number], b)
    && (b.createdAt == ZERO_TIME || mem.issues[b.number].created == b.createdAt)
  }

  ghost predicate CurrentIssue(users: map<int, string>, gi: Issue, b: ApiIssue) {
    && CurrentFields(gi, b)
    && HasLogin(users, gi.user, b.user) && HasLogin(users, gi.closedBy, b.closedBy)
    && (forall u | u in b.assignees :: Knows(users, u))
  }

  ghost predicate CurrentFields(gi: Issue, b: ApiIssue) {
    && gi.updated == TimeOr(b.updatedAt, gi.updated) && gi.closedAt == TimeOr(b.closedAt, gi.closedAt)
    && TextsAre(gi, b)
    && (set id | id in gi.assignees) == UserIds(b.assignees)
    && gi.labels == LabelIds(b.labels)
  }

  lemma CurrentHasNoDiff(mem: Memory, b: ApiIssue, m: IssueMutation)
    requires Wired(mem) && Sane(b) && IsDiff(mem, b, m) && Current(mem, b)
    ensures !HasChanges(mem, b, m)
  {
    var gi := mem.issues[b.number];
    NoAssigneeDiff(mem.users, gi.assignees, b.assignees);
    NoLabelDiff(gi, b);
  }

  lemma NoDiffIsCurrent(mem: Memory, b: ApiIssue, m: IssueMutation)
    requires Wired(mem) && Sane(b) && IsDiff(mem, b, m) && !HasChanges(mem, b, m)
    ensures Current(mem, b)
  {
    var gi := mem.issues[b.number];
    NewAre(mem.users, gi.assignees, b.assignees);
    forall u | u in b.assignees ensures Knows(mem.users, u) {
      assert UserProto(u.id, u.login) !in m.assignees;
    }
    AssigneesBecome(mem.users, gi.assignees, b.assignees);
    LabelsBecome(gi, b, m, true);
    TextsBecome(mem, b, m, gi.(notExist := false));
    NothingAmended(mem, b, m);
  }

  /** A poll has something to report if and only if memory does not agree with b yet. */
  lemma ChangesExactly(mem: Memory, b: ApiIssue, m: IssueMutation)
    requires Wired(mem) && Sane(b) && IsDiff(mem, b, m)
    ensures HasChanges(mem, b, m) <==> !Current(mem, b)
  {
    if Current(mem, b) {
      CurrentHasNoDiff(mem, b, m);
    } else if !HasChanges(mem, b, m) {
      NoDiffIsCurrent(mem, b, m);
    }
  }

  /** The whole diff of an issue that is up to date is empty, but for a creation time that never agreed. */
  lemma UpToDateHasNoDiff(mem: Memory, b: ApiIssue, a: Issue, m: IssueMutation)
    requires Wired(mem) && Sane(b) && Became(mem, b, a) && IsDiff(mem, b, m)
    ensures HasChanges(mem, b, m) <==> b.createdAt != ZERO_TIME && mem.issues[b.number].created != b.createdAt
  {
    ChangesExactly(mem, b, m);
    if b.user.Some? {
      assert Knows(mem.users, b.user.value);
    }
    if b.closedBy.Some? {
      assert Knows(mem.users, b.closedBy.value);
    }
  }

  // ---- What polling does ----

  lemma TakenOverStays(mem: Memory, b: ApiIssue, m: IssueMutation)
    requires Wired(mem) && Sane(b) && IsDiff(mem, b, m) && !SameLoginSameUser(mem, b)
    ensures !Became(Polled(mem, b, m), b, Before(mem, b.number))
  {
  }

  /** What a diff does not look at: that the issue exists, and that it is a pull request. */
  predicate InStep(a: Issue, b: ApiIssue) {
    !a.notExist && (b.isPullRequest ==> a.pullRequest)
  }

  lemma CurrentBecame(mem: Memory, b: ApiIssue)
    requires Current(mem, b) && SameLoginSameUser(mem, b)
    ensures Became(mem, b, mem.issues[b.number]) <==> InStep(mem.issues[b.number], b)
  {
  }

  /**
   Polling an issue makes it what GitHub says it is, whether or not it was known before, with two exceptions: an issue
   recorded as not existing, or as no pull request, that otherwise agrees with GitHub already, and an author or closer whose
   login now belongs to another user. Only logins are compared, so the user on record stays.
   */
  lemma PollingBecomes(mem: Memory, b: ApiIssue, m: IssueMutation)
    requires Wired(mem) && Sane(b) && IsDiff(mem, b, m)
    ensures Became(Polled(mem, b, m), b, Before(mem, b.number)) <==>
              SameLoginSameUser(mem, b) && (InStep(Before(mem, b.number), b) || !Current(mem, b))
  {
    var a := Before(mem, b.number);
    ChangesExactly(mem, b, m);
    if !SameLoginSameUser(mem, b) {
      TakenOverStays(mem, b, m);
    } else if HasChanges(mem, b, m) {
      forall u | Mentions(b, u) ensures Knows(Polled(mem, b, m).users, u) {
        LoginsBecome(mem, b, m, u);
      }
      AmendedBecomes(mem, b, m, if b.number in mem.issues then a.(notExist := false) else a.(created := Or(m.created, EPOCH)));
    } else {
      CurrentBecame(mem, b);
    }
  }

  /** The second exception: the author's login went to another user, and the poll reports nothing. */
  lemma LoginTakenOver() returns (mem: Memory, b: ApiIssue, m: IssueMutation)
    ensures Wired(mem) && Sane(b) && IsDiff(mem, b, m) && !HasChanges(mem, b, m)
    ensures b.number in mem.issues && !mem.issues[b.number].notExist
    ensures !Became(Polled(mem, b, m), b, Before(mem, b.number))
  {
    mem := Memory(map[1 := "gopher"], map[], map[], map[7 := BLANK_ISSUE.(user := Some(1), title := "t", milestone := NoMilestone)]);
    b := ApiIssue(7, false, ZERO_TIME, ZERO_TIME, ZERO_TIME, Some(ApiUser(2, "gopher")), None, "", "t", None, [], false, false, []);
    m := IssueMutation(7, false, false, None, None, None, None, None, None, "", false, 0, 0, "", [], [], None, None, [], []);
  }

  // ---- The rest of memory ----

  /** A poll changes no other issue, and never the creation time; a new issue is born when GitHub says, or at the epoch. */
  lemma PollSparesOthers(mem: Memory, b: ApiIssue, m: IssueMutation)
    requires Wired(mem) && Sane(b) && IsDiff(mem, b, m)
    ensures var mem' := Polled(mem, b, m);
            && mem'.issues.Keys == mem.issues.Keys + {b.number}
            && (forall n | n in mem.issues && n != b.number :: mem'.issues[n] == mem.issues[n])
            && mem'.issues[b.number].created == if b.number in mem.issues then mem.issues[b.number].created else TimeOr(b.createdAt, EPOCH)
  {
  }

  lemma {:induction false} LabelsLearned(labels: map<int, string>, ls: seq<ApiLabel>, id: int)
    requires forall l, l' | l in ls && l' in ls && l.id == l'.id :: l == l'
    ensures forall l | l in ls && l.name != "" :: l.id in LearnLabels(labels, ls) && LearnLabels(labels, ls)[l.id] == l.name
    ensures id !in LabelIds(ls) ==>
              (id in LearnLabels(labels, ls) <==> id in labels) && (id in labels ==> LearnLabels(labels, ls)[id] == labels[id])
  {
    if ls != [] {
      var init, last := ls[..|ls| - 1], ls[|ls| - 1];
      assert ls == init + [last];
      LabelsLearned(labels, init, id);
    }
  }

  /**
   After a poll with changes every label that is new to the issue has the name that GitHub gives it, and every other name
   is as before; a milestone that is new to the issue has its title and number.
   */
  lemma NamesBecome(mem: Memory, b: ApiIssue, m: IssueMutation, l: ApiLabel)
    requires Wired(mem) && Sane(b) && IsDiff(mem, b, m) && HasChanges(mem, b, m)
    ensures var a, mem' := Before(mem, b.number), Polled(mem, b, m);
            && (l in b.labels && l.id !in a.labels && l.name != "" ==> l.id in mem'.labels && mem'.labels[l.id] == l.name)
            && (l.id !in LabelIds(b.labels) - a.labels ==>
                  (l.id in mem'.labels <==> l.id in mem.labels) && (l.id in mem.labels ==> mem'.labels[l.id] == mem.labels[l.id]))
            && (b.milestone.Some? && a.milestone != InMilestone(b.milestone.value.id) ==>
                  && b.milestone.value.id in mem'.milestones
                  && (b.milestone.value.title != "" ==> mem'.milestones[b.milestone.value.id].title == b.milestone.value.title)
                  && (b.milestone.value.number != 0 ==> mem'.milestones[b.milestone.value.id].number == b.milestone.value.number))
            && (b.milestone.None? || a.milestone == InMilestone(b.milestone.value.id) ==> mem'.milestones == mem.milestones)
  {
    var a := Before(mem, b.number);
    AddedLabelsAre(mem, b, m);
    LabelsLearned(mem.labels, m.addLabel, l.id);
  }

  /** The labels to add are those of b that are new to the issue. */
  lemma AddedLabelsAre(mem: Memory, b: ApiIssue, m: IssueMutation)
    requires Wired(mem) && Sane(b) && IsDiff(mem, b, m)
    ensures forall l :: l in m.addLabel <==> l in b.labels && l.id !in Before(mem, b.number).labels
  {
    var a := Before(mem, b.number);
    forall l ensures l in m.addLabel <==> l in b.labels && l.id !in a.labels {
      LabelIsNew(a.labels, b.labels, l);
      assert l in m.addLabel <==> l in set x | x in m.addLabel;
    }
  }

  lemma LabelIsNew(known: set<int>, ls: seq<ApiLabel>, l: ApiLabel)
    requires forall i, j :: 0 <= i < j < |ls| ==> ls[i].id != ls[j].id
    ensures l in NewLabels(known, ls) <==> l in ls && l.id !in known
    ensures SameLabels(known, ls) ==> !(l in ls && l.id !in known)
  {
    if l in ls {
      var i :| 0 <= i < |ls| && ls[i] == l;
      assert l.id !in known ==> ls[i] in NewLabels(known, ls);
    }
  }

  /** A mutation of issue 0 is ignored. */
  lemma ZeroIsIgnored(mem: Memory, m: IssueMutation)
    requires m.number == 0
    ensures Process(mem, m) == mem
  {
  }

  /** A mutation that says that an issue does not exist marks it so and changes nothing else. */
  lemma NotExistIs(mem: Memory, m: IssueMutation)
    requires m.notExist && m.number != 0
    ensures var mem' := Process(mem, m);
            && mem' == mem.(issues := mem'.issues) && mem'.issues.Keys == mem.issues.Keys + {m.number}
            && mem'.issues[m.number].notExist
            && (forall n | n in mem.issues && n != m.number :: mem'.issues[n] == mem.issues[n])
            && (m.number in mem.issues ==> mem'.issues[m.number].(notExist := mem.issues[m.number].notExist) == mem.issues[m.number])
  {
  }

  // ---- Polling twice ----

  /** newGithubUserProto reports u. */
  predicate Reported(users: map<int, string>, existing: Option<int>, g: Option<ApiUser>, u: ApiUser) {
    g == Some(u) && !HasLogin(users, existing, g)
  }

  /** A poll of b tells the corpus the login of u. */
  ghost predicate Tells(mem: Memory, b: ApiIssue, u: ApiUser) {
    var a := Before(mem, b.number);
    || Reported(mem.users, a.user, b.user, u)
    || Reported(mem.users, a.closedBy, b.closedBy, u)
    || (u in b.assignees && !(u.id in a.assignees && Knows(mem.users, u)))
  }

  /** The login in g went to another user, and the poll tells the corpus that the user on record has a new one. */
  ghost predicate Frees(mem: Memory, b: ApiIssue, existing: Option<int>, g: Option<ApiUser>) {
    && TakenOver(mem.users, existing, g)
    && exists u :: Tells(mem, b, u) && u.id == existing.value && u.login != g.value.login
  }

  /** A poll tells the corpus exactly the logins of its mutation. */
  lemma TellsAre(mem: Memory, b: ApiIssue, m: IssueMutation, u: ApiUser)
    requires Wired(mem) && IsDiff(mem, b, m)
    ensures Tells(mem, b, u) <==>
              m.user == Some(UserProto(u.id, u.login)) || m.closedBy == Some(UserProto(u.id, u.login)) || UserProto(u.id, u.login) in m.assignees
  {
    NewAre(mem.users, Before(mem, b.number).assignees, b.assignees);
  }

  lemma {:induction false} LearnAllSpares(users: map<int, string>, ps: seq<UserProto>, id: int)
    requires id in users && forall p | p in ps :: p.id != id
    ensures id in LearnAll(users, ps) && LearnAll(users, ps)[id] == users[id]
  {
    if ps != [] {
      assert ps[|ps| - 1] in ps;
      LearnAllSpares(users, ps[..|ps| - 1], id);
    }
  }

  ghost function UsersAfter(mem: Memory, m: IssueMutation): map<int, string> {
    LearnAll(LearnOption(LearnOption(mem.users, m.user), m.closedBy), m.assignees)
  }

  /** Whom the poll does not speak of keeps the login. */
  lemma UntoldStay(mem: Memory, b: ApiIssue, m: IssueMutation, id: int)
    requires Wired(mem) && IsDiff(mem, b, m) && id in mem.users
    requires forall u | Tells(mem, b, u) :: u.id != id
    ensures id in UsersAfter(mem, m) && UsersAfter(mem, m)[id] == mem.users[id]
  {
    forall p | m.user == Some(p) || m.closedBy == Some(p) || p in m.assignees ensures p.id != id {
      TellsAre(mem, b, m, ApiUser(p.id, p.login));
      assert UserProto(p.id, p.login) == p;
    }
    LearnAllSpares(LearnOption(LearnOption(mem.users, m.user), m.closedBy), m.assignees, id);
  }

  /** Whom the poll speaks of gets the login. */
  lemma ToldLearn(mem: Memory, b: ApiIssue, m: IssueMutation, u: ApiUser)
    requires Wired(mem) && Sane(b) && IsDiff(mem, b, m) && Tells(mem, b, u)
    ensures Knows(UsersAfter(mem, m), u)
  {
    TellsAre(mem, b, m, u);
    LearnsAll(mem, b, m, u);
  }

  /** A user of b with the login that b gives keeps it. */
  lemma KnownStay(mem: Memory, b: ApiIssue, m: IssueMutation, u: ApiUser)
    requires Wired(mem) && Sane(b) && IsDiff(mem, b, m) && Mentions(b, u) && Knows(mem.users, u)
    ensures Knows(UsersAfter(mem, m), u)
  {
    LearnsAll(mem, b, m, u);
  }

  /** The author or closer after the poll has the login that b gives, unless the poll frees it. */
  lemma RoleAfter(mem: Memory, b: ApiIssue, m: IssueMutation, existing: Option<int>, g: Option<ApiUser>)
    requires Wired(mem) && Sane(b) && IsDiff(mem, b, m) && (existing.Some? ==> existing.value in mem.users)
    requires g.Some? ==> Mentions(b, g.value) && forall u | Reported(mem.users, existing, g, u) :: Tells(mem, b, u)
    ensures HasLogin(UsersAfter(mem, m), IdOr(DiffUser(mem.users, existing, g), existing), g) <==> !Frees(mem, b, existing, g)
  {
    if g.Some? {
      if Reported(mem.users, existing, g, g.value) {
        ToldLearn(mem, b, m, g.value);
      } else if existing.value == g.value.id {
        KnownStay(mem, b, m, g.value);
      } else if u :| Tells(mem, b, u) && u.id == existing.value {
        ToldLearn(mem, b, m, u);
        if v :| Tells(mem, b, v) && v.id == existing.value && v.login != g.value.login {
          ToldLearn(mem, b, m, v);
        }
      } else {
        UntoldStay(mem, b, m, existing.value);
      }
    }
  }

  lemma AssigneesKnown(mem: Memory, b: ApiIssue, m: IssueMutation, u: ApiUser)
    requires Wired(mem) && Sane(b) && IsDiff(mem, b, m) && u in b.assignees
    ensures Knows(UsersAfter(mem, m), u)
  {
    if Tells(mem, b, u) {
      ToldLearn(mem, b, m, u);
    } else {
      KnownStay(mem, b, m, u);
    }
  }

  lemma FieldsAfter(mem: Memory, b: ApiIssue, m: IssueMutation, gi: Issue)
    requires Wired(mem) && Sane(b) && IsDiff(mem, b, m)
    requires gi == Before(mem, b.number).(created := gi.created, notExist := false)
    ensures CurrentFields(Amended(gi, m), b)
  {
    var a := Before(mem, b.number);
    AssigneesBecome(mem.users, a.assignees, b.assignees);
    LabelsBecome(a, b, m, b.number in mem.issues);
    TextsBecome(mem, b, m, gi);
  }

  /** What a poll with changes leaves. */
  lemma AfterPoll(mem: Memory, b: ApiIssue, m: IssueMutation, gi: Issue)
    requires Wired(mem) && Sane(b) && IsDiff(mem, b, m)
    requires gi == Before(mem, b.number).(created := gi.created, notExist := false)
    ensures var a := Before(mem, b.number);
            CurrentIssue(UsersAfter(mem, m), Amended(gi, m), b) <==> !Frees(mem, b, a.user, b.user) && !Frees(mem, b, a.closedBy, b.closedBy)
  {
    var a := Before(mem, b.number);
    FieldsAfter(mem, b, m, gi);
    RoleAfter(mem, b, m, a.user, b.user);
    RoleAfter(mem, b, m, a.closedBy, b.closedBy);
    forall u | u in b.assignees ensures Knows(UsersAfter(mem, m), u) {
      AssigneesKnown(mem, b, m, u);
    }
  }

  /** When a poll has nothing to report it tells nothing. */
  lemma CurrentTellsNothing(mem: Memory, b: ApiIssue, u: ApiUser)
    requires Current(mem, b)
    ensures !Tells(mem, b, u)
  {
    if u in b.assignees {
      assert u.id in UserIds(b.assignees);
      assert u.id in set id | id in mem.issues[b.number].assignees;
    }
  }

  /**
   Polling the same issue again reports something in two cases only: GitHub's creation time is not the one on record,
   which the corpus never changes, or the first poll freed a login that author or closer had in memory, so that only the
   second can see whose it is.
   */
  lemma PollingTwiceIsIdle(mem: Memory, b: ApiIssue, m: IssueMutation, m': IssueMutation)
    requires Wired(mem) && Sane(b) && IsDiff(mem, b, m)
    requires Wired(Polled(mem, b, m)) && IsDiff(Polled(mem, b, m), b, m')
    ensures var a := Before(mem, b.number);
            HasChanges(Polled(mem, b, m), b, m') <==>
              || (b.number in mem.issues && b.createdAt != ZERO_TIME && a.created != b.createdAt)
              || Frees(mem, b, a.user, b.user) || Frees(mem, b, a.closedBy, b.closedBy)
  {
    var a := Before(mem, b.number);
    ChangesExactly(mem, b, m);
    ChangesExactly(Polled(mem, b, m), b, m');
    if HasChanges(mem, b, m) {
      AfterPoll(mem, b, m, if b.number in mem.issues then a.(notExist := false) else a.(created := Or(m.created, EPOCH)));
    } else {
      forall u ensures !Tells(mem, b, u) {
        CurrentTellsNothing(mem, b, u);
      }
    }
  }

  // ---- Processing keeps the corpus wired ----

  lemma {:induction false} LearnAllGrows(users: map<int, string>, us: seq<UserProto>)
    ensures users.Keys <= LearnAll(users, us).Keys
    ensures forall p | p in us :: p.id in LearnAll(users, us)
  {
    if us != [] {
      LearnAllGrows(users, us[..|us| - 1]);
      assert us == us[..|us| - 1] + [us[|us| - 1]];
    }
  }

  /** Whatever the mutation, every user an issue refers to is known afterwards. */
  lemma ProcessKeepsWired(mem: Memory, m: IssueMutation)
    requires Wired(mem)
    ensures Wired(Process(mem, m))
  {
    var mem' := Process(mem, m);
    LearnAllGrows(LearnOption(LearnOption(mem.users, m.user), m.closedBy), m.assignees);
    assert mem.users.Keys <= mem'.users.Keys;
    forall n | n in mem'.issues ensures WiredIssue(mem'.users, mem'.issues[n]) {
      var gi := Before(mem, n);
      assert n in mem.issues ==> WiredIssue(mem.users, gi);
      if n == m.number && !m.notExist && n != 0 {
        AmendedStaysWired(mem.users, mem'.users, gi, m);
      }
    }
  }

  lemma AmendedStaysWired(users: map<int, string>, users': map<int, string>, gi: Issue, m: IssueMutation)
    requires WiredIssue(users, gi) && users.Keys <= users'.Keys
    requires forall p | p in m.assignees :: p.id in users'
    ensures forall id | id in Amended(gi, m).assignees :: id in users'
  {
    AddedAre(gi.assignees, m.assignees);
    WithoutAre(Added(gi.assignees, m.assignees), m.deletedAssignees);
  }
}
