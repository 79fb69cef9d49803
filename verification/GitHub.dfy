/** The objects of maintner/github.go: users, labels and milestones are interned and shared by the issues. */
module GitHub {
  import opened Basics
  import opened GitHubSpec
  import opened GitHubLaws

  class GitHubUser {
    const id: int
    var login: string

    constructor (id: int, login: string)
      ensures this.id == id && this.login == login
    {
      this.id, this.login := id, login;
    }
  }

  /** The users of us have the IDs ids, in order. */
  ghost predicate HaveIds(us: seq<GitHubUser>, ids: seq<int>) {
    |us| == |ids| && forall i :: 0 <= i < |us| ==> us[i].id == ids[i]
  }

  class GitHubIssue {
    const number: int
    var notExist: bool
    var closed: bool
    var locked: bool
    var pullRequest: bool
    var user: GitHubUser?
    var assignees: seq<GitHubUser>
    var created: int
    var updated: int
    var closedAt: int
    var closedBy: GitHubUser?
    var title: string
    var body: string
    var milestone: MilestoneRef
    var labels: set<int>

    constructor (number: int)
      ensures this.number == number && Holds(BLANK_ISSUE)
    {
      this.number := number;
      notExist, closed, locked, pullRequest, user, assignees := false, false, false, false, null, [];
      created, updated, closedAt, closedBy := ZERO_TIME, ZERO_TIME, ZERO_TIME, null;
      title, body, milestone, labels := "", "", UnknownMilestone, {};
    }

    ghost predicate Holds(gi: Issue)
      reads this
    {
      HoldsPlain(gi) && HoldsPeople(gi)
    }

    /** The fields that are no pointers. */
    ghost predicate HoldsPlain(gi: Issue)
      reads this`notExist, this`closed, this`locked, this`pullRequest, this`created, this`updated, this`closedAt
      reads this`title, this`body, this`milestone, this`labels
    {
      HoldsFlags(gi) && HoldsTexts(gi) && milestone == gi.milestone && labels == gi.labels
    }

    ghost predicate HoldsFlags(gi: Issue)
      reads this`notExist, this`closed, this`locked, this`pullRequest
    {
      notExist == gi.notExist && closed == gi.closed && locked == gi.locked && pullRequest == gi.pullRequest
    }

    ghost predicate HoldsTexts(gi: Issue)
      reads this`created, this`updated, this`closedAt, this`title, this`body
    {
      && created == gi.created && updated == gi.updated && closedAt == gi.closedAt
      && title == gi.title && body == gi.body
    }

    ghost predicate HoldsPeople(gi: Issue)
      reads this`user, this`closedBy, this`assignees
    {
      HasId(user, gi.user) && HasId(closedBy, gi.closedBy) && HaveIds(assignees, gi.assignees)
    }

    /** Marks the issue as existing or not, and as born at a time. */
    method Mark(created: int, notExist: bool, ghost gi: Issue)
      requires Holds(gi)
      modifies this`created, this`notExist
      ensures Holds(gi.(created := created, notExist := notExist))
    {
      this.created, this.notExist := created, notExist;
    }

    /** The diff methods of the fields that are neither users nor labels. */
    method DiffPlain(isKnown: bool, b: ApiIssue, ghost gi: Issue) returns (m: IssueMutation)
      requires HoldsPlain(gi)
      ensures IsPlainDiff(isKnown, gi, b, m)
    {
      var ms := DiffMilestone(milestone, b.milestone);
      m := IssueMutation(
        b.number, false, b.isPullRequest,
        DiffTime(created, b.createdAt), DiffTime(updated, b.updatedAt), DiffTime(closedAt, b.closedAt),
        None, None,
        if isKnown && body == b.body then None else Some(b.body),
        if isKnown && title == b.title then "" else b.title,
        ms.1, ms.2.id, ms.2.number, ms.2.title,
        [], [],
        if isKnown && closed == b.isClosed then None else Some(b.isClosed),
        if locked == b.isLocked then None else Some(b.isLocked),
        [], []);
    }

    method AmendFlags(m: IssueMutation, ghost gi: Issue)
      requires HoldsFlags(gi)
      modifies this`closed, this`locked, this`pullRequest
      ensures HoldsFlags(Amended(gi, m))
    {
      closed, locked, pullRequest := Or(m.closed, closed), Or(m.locked, locked), pullRequest || m.pullRequest;
    }

    method AmendTexts(m: IssueMutation, ghost gi: Issue)
      requires HoldsTexts(gi)
      modifies this`updated, this`closedAt, this`body, this`title
      ensures HoldsTexts(Amended(gi, m))
    {
      updated, closedAt := Or(m.updated, updated), Or(m.closedAt, closedAt);
      body, title := Or(m.bodyChange, body), if m.title != "" then m.title else title;
    }

    method AmendPlain(m: IssueMutation, ghost gi: Issue)
      requires HoldsPlain(gi)
      modifies this`closed, this`locked, this`pullRequest, this`updated, this`closedAt
      modifies this`body, this`title, this`milestone, this`labels
      ensures HoldsPlain(Amended(gi, m))
    {
      AmendFlags(m, gi);
      AmendTexts(m, gi);
      if m.noMilestone {
        milestone := NoMilestone;
      } else if m.milestoneId != 0 {
        milestone := InMilestone(m.milestoneId);
      }
      labels := labels - (set id | id in m.removeLabel) + LabelIds(m.addLabel);
    }
  }

  method ByUserID(us: seq<GitHubUser>, ghost ids: seq<int>) returns (mp: map<int, GitHubUser>)
    requires HaveIds(us, ids)
    ensures forall id :: id in mp <==> id in ids
    ensures forall id | id in mp :: mp[id].id == id && mp[id] in us
  {
    mp := map[];
    for i := 0 to |us|
      invariant forall id :: id in mp <==> id in ids[..i]
      invariant forall id | id in mp :: mp[id].id == id && mp[id] in us
    {
      mp := mp[us[i].id := us[i]];
      assert ids[..i + 1] == ids[..i] + [ids[i]];
    }
    assert ids[..|us|] == ids;
  }

  ghost predicate HasId(u: GitHubUser?, id: Option<int>) {
    match id
    case None => u == null
    case Some(id) => u != null && u.id == id
  }

  // ---- Labels ----

  /** The last label of each ID. */
  function LastLabels(ls: seq<ApiLabel>): map<int, ApiLabel> {
    if ls == [] then map[] else LastLabels(ls[..|ls| - 1])[ls[|ls| - 1].id := ls[|ls| - 1]]
  }

  /** Label i is the last one with that ID. */
  ghost predicate LastAt(ls: seq<ApiLabel>, id: int, i: nat) {
    i < |ls| && ls[i].id == id && forall j :: i < j < |ls| ==> ls[j].id != id
  }

  lemma {:induction false} LastLabelIs(ls: seq<ApiLabel>, id: int) returns (i: nat)
    requires id in LastLabels(ls)
    ensures LastAt(ls, id, i) && LastLabels(ls)[id] == ls[i]
  {
    i := |ls| - 1;
    if ls[i].id != id {
      var init := ls[..i];
      var k := LastLabelIs(init, id);
      assert ls[k] == init[k];
      assert forall j :: k < j < |init| ==> ls[j] == init[j];
      i := k;
    }
  }

  lemma {:induction false} LastLabelKeys(ls: seq<ApiLabel>)
    ensures LastLabels(ls).Keys == LabelIds(ls)
  {
    if ls != [] {
      var rest, l := ls[..|ls| - 1], ls[|ls| - 1];
      LastLabelKeys(rest);
      assert ls == rest + [l];
      assert LabelIds(ls) == LabelIds(rest) + {l.id};
    }
  }

  lemma LastLabelsAre(ls: seq<ApiLabel>)
    ensures LastLabels(ls).Keys == LabelIds(ls)
    ensures forall id | id in LastLabels(ls) ::
              LastLabels(ls)[id].id == id && exists i: nat :: LastAt(ls, id, i) && ls[i] == LastLabels(ls)[id]
  {
    LastLabelKeys(ls);
    forall id | id in LastLabels(ls)
      ensures LastLabels(ls)[id].id == id && exists i: nat :: LastAt(ls, id, i) && ls[i] == LastLabels(ls)[id]
    {
      var i := LastLabelIs(ls, id);
    }
  }

  lemma NewLabelsAre(known: set<int>, ls: seq<ApiLabel>)
    ensures var m := LastLabels(ls) - known; (set id | id in m :: m[id]) == NewLabels(known, ls)
  {
    var m := LastLabels(ls) - known;
    forall id | id in m ensures m[id] in NewLabels(known, ls) {
      var i := LastLabelIs(ls, id);
    }
    forall l | l in NewLabels(known, ls) ensures l.id in m && m[l.id] == l {
      LastLabelKeys(ls);
      assert l.id in LabelIds(ls);
      var i := LastLabelIs(ls, l.id);
    }
  }

  /** The fast path of diffLabels. */
  method HasAll(known: set<int>, ls: seq<ApiLabel>) returns (all: bool)
    ensures all == forall i :: 0 <= i < |ls| ==> ls[i].id in known
  {
    for k := 0 to |ls|
      invariant forall i :: 0 <= i < k ==> ls[i].id in known
    {
      if ls[k].id !in known {
        return false;
      }
    }
    return true;
  }

  method ByID(ls: seq<ApiLabel>) returns (m: map<int, ApiLabel>)
    ensures m == LastLabels(ls)
  {
    m := map[];
    for k := 0 to |ls|
      invariant m == LastLabels(ls[..k])
    {
      assert ls[..k + 1][..k] == ls[..k];
      m := m[ls[k].id := ls[k]];
    }
    assert ls[..|ls|] == ls;
  }

  /** Ranging over the labels in memory: those that are listed are not new, the others are gone. */
  method Split(known: set<int>, byID: map<int, ApiLabel>) returns (toAdd: map<int, ApiLabel>, toDelete: seq<int>)
    ensures toAdd == byID - known
    ensures (set id | id in toDelete) == known - byID.Keys
  {
    toAdd, toDelete := byID, [];
    var rest := known;
    while rest != {}
      invariant rest <= known
      invariant toAdd == byID - (known - rest)
      invariant (set id | id in toDelete) == known - rest - byID.Keys
      decreases rest
    {
      NonEmpty(rest);
      var id: int :| id in rest;
      if id in toAdd {
        toAdd := toAdd - {id};
      } else {
        ghost var before := set x | x in toDelete;
        toDelete := toDelete + [id];
        assert (set x | x in toDelete) == before + {id};
      }
      rest := rest - {id};
    }
  }

  method Listed(toAdd: map<int, ApiLabel>) returns (ls: seq<ApiLabel>)
    ensures (set l | l in ls) == (set id | id in toAdd :: toAdd[id])
  {
    ls := [];
    var rest := toAdd.Keys;
    while rest != {}
      invariant rest <= toAdd.Keys
      invariant forall l :: l in ls <==> exists id :: id in toAdd && id !in rest && toAdd[id] == l
      decreases rest
    {
      NonEmpty(rest);
      var id: int :| id in rest;
      ls, rest := ls + [toAdd[id]], rest - {id};
    }
  }

  /** diffLabels. It panics on a zero ID. */
  method DiffLabels(isKnown: bool, known: set<int>, ls: seq<ApiLabel>) returns (remove: seq<int>, add: seq<ApiLabel>)
    requires forall i :: 0 <= i < |ls| ==> ls[i].id != 0
    ensures IsLabelDiff(isKnown, known, ls, remove, add)
  {
    if isKnown && |known| == |ls| {
      var same := HasAll(known, ls);
      if same {
        return [], [];
      }
    }
    var byID := ByID(ls);
    var toAdd;
    toAdd, remove := Split(known, byID);
    add := Listed(toAdd);
    LastLabelsAre(ls);
    NewLabelsAre(known, ls);
  }

  /**
   One repository. Users are objects that issues share; labels and milestones are shared by ID.
   */
  class GitHubRepo {
    var users: map<int, GitHubUser>
    var milestones: map<int, MilestoneInfo>
    var labels: map<int, string>
    var issues: map<int, GitHubIssue>
    ghost var logins: map<int, string>  // the contents of users as a value
    ghost var views: map<int, Issue>  // the contents of issues as a value
    ghost var userObjects: set<GitHubUser>
    ghost var issueObjects: set<GitHubIssue>

    constructor ()
      ensures Valid() && Mem() == Memory(map[], map[], map[], map[])
    {
      users, milestones, labels, issues := map[], map[], map[], map[];
      logins, views, userObjects, issueObjects := map[], map[], {}, {};
    }

    ghost function Mem(): Memory
      reads this
    {
      Memory(logins, milestones, labels, views)
    }

    ghost predicate Valid()
      reads this, userObjects, issueObjects
    {
      ValidUsers() && ValidIssues()
    }

    ghost predicate ValidUsers()
      reads this`users, this`logins, this`userObjects, userObjects
    {
      && users.Keys == logins.Keys
      && forall id | id in users :: users[id] in userObjects && users[id].id == id && users[id].login == logins[id]
    }

    ghost predicate ValidIssues()
      reads this`issues, this`views, this`issueObjects, this`users, issueObjects
    {
      && issues.Keys == views.Keys
      && (forall n | n in issues :: issues[n] in issueObjects && issues[n].number == n)
      && (forall n | n in issues :: IssueOk(issues[n], views[n]))
    }

    ghost predicate IssueOk(gi: GitHubIssue, view: Issue)
      reads this`users, gi
    {
      gi.Holds(view) && WiresPeople(gi)
    }

    /** The issue's pointers are to the corpus's own users. */
    ghost predicate WiresPeople(gi: GitHubIssue)
      reads this`users, gi`user, gi`closedBy, gi`assignees
    {
      && (gi.user != null ==> Interned([gi.user]))
      && (gi.closedBy != null ==> Interned([gi.closedBy]))
      && Interned(gi.assignees)
    }

    ghost predicate Interned(us: seq<GitHubUser>)
      reads this`users
    {
      forall i | 0 <= i < |us| :: us[i].id in users && users[us[i].id] == us[i]
    }

    // ---- Users ----

    /** Users are never replaced by other objects, and all others are new. */
    twostate predicate GrewUsers()
      reads this
    {
      && (forall id | id in old(users) :: id in users && users[id] == old(users[id]))
      && (forall u | u in userObjects :: u in old(userObjects) || fresh(u))
    }

    method Rename(u: GitHubUser, login: string)
      requires ValidUsers() && Interned([u])
      modifies this`logins, u
      ensures ValidUsers() && logins == Learn(old(logins), UserProto(u.id, login))
    {
      assert [u][0] == u;
      if login != "" {
        u.login := login;
        logins := logins[u.id := login];
      }
    }

    /** getUser: the one object of that ID, with its login brought up to date. */
    method GetUser(pu: UserProto) returns (u: GitHubUser)
      requires ValidUsers()
      modifies this`users, this`logins, this`userObjects, userObjects
      ensures ValidUsers() && GrewUsers()
      ensures logins == Learn(old(logins), pu)
      ensures u.id == pu.id && Interned([u])
    {
      if pu.id in users {
        u := users[pu.id];
        Rename(u, pu.login);
      } else {
        u := new GitHubUser(pu.id, pu.login);
        users, logins, userObjects := users[pu.id := u], logins[pu.id := pu.login], userObjects + {u};
      }
    }

    /** One addition of setAssigneesFromProto. */
    method AddAssignee(existing: seq<GitHubUser>, mp: map<int, GitHubUser>, r: seq<GitHubUser>, p: UserProto)
      returns (r': seq<GitHubUser>)
      requires ValidUsers() && Interned(existing) && Interned(r)
      requires forall id | id in mp :: mp[id].id == id && Interned([mp[id]])
      modifies this`users, this`logins, this`userObjects, userObjects
      ensures ValidUsers() && GrewUsers() && logins == Learn(old(logins), p)
      ensures Interned(existing) && Interned(r')
      ensures forall ids' | HaveIds(r, ids') :: HaveIds(r', if p.id in mp then ids' else ids' + [p.id])
    {
      r' := r;
      if p.id in mp {
        assert [mp[p.id]][0] == mp[p.id];
        Rename(mp[p.id], p.login);
      } else {
        var u := GetUser(p);
        assert [u][0] == u;
        r' := r + [u];
      }
    }

    /** The additions of setAssigneesFromProto. */
    method AddAssignees(existing: seq<GitHubUser>, more: seq<UserProto>, ghost ids: seq<int>) returns (r: seq<GitHubUser>)
      requires ValidUsers() && HaveIds(existing, ids) && Interned(existing)
      modifies this`users, this`logins, this`userObjects, userObjects
      ensures ValidUsers() && GrewUsers()
      ensures logins == LearnAll(old(logins), more)
      ensures HaveIds(r, Added(ids, more)) && Interned(r)
    {
      var mp := ByUserID(existing, ids);
      r := existing;
      for k := 0 to |more|
        invariant ValidUsers() && GrewUsers() && Interned(r) && Interned(existing)
        invariant logins == LearnAll(old(logins), more[..k])
        invariant HaveIds(r, Added(ids, more[..k]))
      {
        assert more[..k + 1][..k] == more[..k];
        assert forall id | id in mp :: [mp[id]][0] == mp[id] && mp[id] in existing;
        r := AddAssignee(existing, mp, r, more[k]);
      }
      assert more[..|more|] == more;
    }

    /** slices.DeleteFunc in setAssigneesFromProto. */
    method DeleteAssignees(existing: seq<GitHubUser>, toDelete: seq<int>, ghost ids: seq<int>) returns (r: seq<GitHubUser>)
      requires HaveIds(existing, ids) && Interned(existing)
      ensures HaveIds(r, Without(ids, toDelete)) && Interned(r)
    {
      r := [];
      for k := 0 to |existing|
        invariant HaveIds(r, Without(ids[..k], toDelete)) && Interned(r)
      {
        assert ids[..k + 1][..k] == ids[..k];
        if existing[k].id !in toDelete {
          r := r + [existing[k]];
        }
      }
      assert ids[..|existing|] == ids;
    }

    method SetAssigneesFromProto(existing: seq<GitHubUser>, more: seq<UserProto>, toDelete: seq<int>, ghost ids: seq<int>)
      returns (r: seq<GitHubUser>)
      requires ValidUsers() && HaveIds(existing, ids) && Interned(existing)
      modifies this`users, this`logins, this`userObjects, userObjects
      ensures ValidUsers() && GrewUsers()
      ensures logins == LearnAll(old(logins), more)
      ensures HaveIds(r, Without(Added(ids, more), toDelete)) && Interned(r)
    {
      r := AddAssignees(existing, more, ids);
      r := DeleteAssignees(r, toDelete, Added(ids, more));
    }

    /** getUser of a user that a mutation may name; otherwise the user stays. */
    method GetUserOr(pu: Option<UserProto>, was: GitHubUser?, ghost id: Option<int>) returns (u: GitHubUser?)
      requires ValidUsers() && HasId(was, id) && (was != null ==> Interned([was]))
      modifies this`users, this`logins, this`userObjects, userObjects
      ensures ValidUsers() && GrewUsers() && logins == LearnOption(old(logins), pu)
      ensures HasId(u, IdOr(pu, id)) && (u != null ==> Interned([u]))
    {
      u := was;
      if pu.Some? {
        u := GetUser(pu.value);
      }
    }

    method AmendAuthor(gi: GitHubIssue, m: IssueMutation, ghost view: Issue)
      requires ValidUsers() && gi.HoldsPeople(view) && WiresPeople(gi)
      modifies this`users, this`logins, this`userObjects, userObjects, gi`user, gi`closedBy
      ensures ValidUsers() && GrewUsers()
      ensures gi.HoldsPeople(view.(user := IdOr(m.user, view.user), closedBy := IdOr(m.closedBy, view.closedBy))) && WiresPeople(gi)
      ensures logins == LearnOption(LearnOption(old(logins), m.user), m.closedBy)
    {
      var user := GetUserOr(m.user, gi.user, view.user);
      var closedBy := GetUserOr(m.closedBy, gi.closedBy, view.closedBy);
      gi.user, gi.closedBy := user, closedBy;
    }

    method AmendPeople(gi: GitHubIssue, m: IssueMutation, ghost view: Issue)
      requires ValidUsers() && gi.HoldsPeople(view) && WiresPeople(gi)
      modifies this`users, this`logins, this`userObjects, userObjects, gi`user, gi`closedBy, gi`assignees
      ensures ValidUsers() && GrewUsers()
      ensures gi.HoldsPeople(Amended(view, m)) && WiresPeople(gi)
      ensures logins == LearnAll(LearnOption(LearnOption(old(logins), m.user), m.closedBy), m.assignees)
    {
      AmendAuthor(gi, m, view);
      gi.assignees := SetAssigneesFromProto(gi.assignees, m.assignees, m.deletedAssignees, view.assignees);
    }

    // ---- Processing a mutation ----

    /** getOrCreateLabel and the label's processMutation, for each label of a mutation. */
    method LearnLabelNames(ls: seq<ApiLabel>)
      modifies this`labels
      ensures labels == LearnLabels(old(labels), ls)
    {
      for k := 0 to |ls|
        invariant labels == LearnLabels(old(labels), ls[..k])
      {
        assert ls[..k + 1][..k] == ls[..k];
        var l := ls[k];
        if l.id !in labels {
          labels := labels[l.id := ""];
        }
        if l.name != "" {
          labels := labels[l.id := l.name];
        }
      }
      assert ls[..|ls|] == ls;
    }

    /** The changes to an issue that exists. */
    method Amend(gi: GitHubIssue, m: IssueMutation, ghost view: Issue)
      requires ValidUsers() && gi.Holds(view) && WiresPeople(gi)
      modifies this`users, this`logins, this`userObjects, this`milestones, this`labels, userObjects, gi
      ensures ValidUsers() && GrewUsers()
      ensures gi.Holds(Amended(view, m)) && WiresPeople(gi)
      ensures logins == LearnAll(LearnOption(LearnOption(old(logins), m.user), m.closedBy), m.assignees)
      ensures milestones == LearnMilestone(old(milestones), m)
      ensures labels == LearnLabels(old(labels), m.addLabel)
    {
      LearnNames(m);
      gi.AmendPlain(m, view);
      AmendPeople(gi, m, view);
    }

    /** The milestone and the labels that a mutation names. */
    method LearnNames(m: IssueMutation)
      modifies this`milestones, this`labels
      ensures milestones == LearnMilestone(old(milestones), m) && labels == LearnLabels(old(labels), m.addLabel)
    {
      milestones := LearnMilestone(milestones, m);
      LearnLabelNames(m.addLabel);
    }

    /** The issue of that number; a new one is born blank. */
    method GetOrCreateIssue(number: int) returns (gi: GitHubIssue)
      requires ValidIssues()
      modifies this`issues, this`views, this`issueObjects
      ensures ValidIssues()
      ensures number in issues && issues[number] == gi
      ensures views == old(views)[number := Before(old(Mem()), number)]
      ensures forall x | x in issueObjects :: x in old(issueObjects) || fresh(x)
    {
      if number in issues {
        gi := issues[number];
        assert views[number := views[number]] == views;
      } else {
        gi := CreateIssue(number);
      }
    }

    method CreateIssue(number: int) returns (gi: GitHubIssue)
      requires ValidIssues() && number !in issues
      modifies this`issues, this`views, this`issueObjects
      ensures ValidIssues()
      ensures number in issues && issues[number] == gi
      ensures views == old(views)[number := BLANK_ISSUE]
      ensures forall x | x in issueObjects :: x in old(issueObjects) || fresh(x)
    {
      gi := new GitHubIssue(number);
      issues, issueObjects, views := issues[number := gi], issueObjects + {gi}, views[number := BLANK_ISSUE];
      Note(gi, BLANK_ISSUE);
      assert views == old(views)[number := BLANK_ISSUE];
    }

    twostate lemma StaysWired(gi: GitHubIssue)
      requires old(WiresPeople(gi)) && GrewUsers() && unchanged(gi)
      ensures WiresPeople(gi)
    {
    }

    /** Notes the new value of an issue that has just changed. */
    ghost method Note(gi: GitHubIssue, view: Issue)
      requires issues.Keys == views.Keys && gi.number in issues && issues[gi.number] == gi
      requires forall n | n in issues :: issues[n] in issueObjects && issues[n].number == n
      requires forall n | n in issues && n != gi.number :: IssueOk(issues[n], views[n])
      requires IssueOk(gi, view)
      modifies this`views
      ensures ValidIssues()
      ensures views == old(views)[gi.number := view]
    {
      views := views[gi.number := view];
    }

    method MarkIssue(gi: GitHubIssue, created: int, notExist: bool)
      requires ValidIssues() && gi.number in issues && issues[gi.number] == gi
      modifies this`views, gi`created, gi`notExist
      ensures ValidIssues()
      ensures views == old(views)[gi.number := old(views)[gi.number].(created := created, notExist := notExist)]
    {
      assert IssueOk(gi, views[gi.number]);
      gi.Mark(created, notExist, views[gi.number]);
      assert forall n | n in issues && n != gi.number :: issues[n] != gi;
      Note(gi, views[gi.number].(created := created, notExist := notExist));
    }

    /** The entry of a mutation: the issue exists or not, and is born if it is new. */
    method Enter(m: IssueMutation) returns (gi: GitHubIssue)
      requires Valid()
      modifies this`issues, this`views, this`issueObjects, issueObjects
      ensures ValidIssues()
      ensures m.number in issues && issues[m.number] == gi
      ensures views == old(views)[m.number := Entered(old(Mem()), m)]
      ensures forall x | x in issueObjects :: x in old(issueObjects) || fresh(x)
    {
      var known := m.number in issues;
      gi := GetOrCreateIssue(m.number);
      assert IssueOk(gi, views[m.number]);
      UpdateTwice(old(views), m.number, views[m.number], Entered(old(Mem()), m));
      MarkIssue(gi, if known || m.notExist then gi.created else Or(m.created, EPOCH), m.notExist);
    }

    method AmendIssue(gi: GitHubIssue, m: IssueMutation)
      requires Valid() && gi.number in issues && issues[gi.number] == gi
      modifies this`users, this`logins, this`userObjects, this`milestones, this`labels, this`views, userObjects, gi
      ensures Valid()
      ensures logins == LearnAll(LearnOption(LearnOption(old(logins), m.user), m.closedBy), m.assignees)
      ensures milestones == LearnMilestone(old(milestones), m)
      ensures labels == LearnLabels(old(labels), m.addLabel)
      ensures views == old(views)[gi.number := Amended(old(views)[gi.number], m)]
    {
      assert IssueOk(gi, views[gi.number]);
      Amend(gi, m, views[gi.number]);
      forall n | n in issues && n != gi.number ensures IssueOk(issues[n], views[n]) {
        assert old(IssueOk(issues[n], views[n]));
        StaysWired(issues[n]);
      }
      Note(gi, Amended(views[gi.number], m));
    }

    /** processGithubIssueMutation. */
    method ProcessIssueMutation(m: IssueMutation)
      requires Valid()
      modifies this, userObjects, issueObjects
      ensures Valid()
      ensures Mem() == Process(old(Mem()), m)
    {
      if m.number != 0 {
        var gi := Enter(m);
        assert IssueOk(gi, views[m.number]) && gi.notExist == m.notExist;
        if !gi.notExist {
          AmendEntered(gi, m, old(Mem()));
        }
      }
    }

    method AmendEntered(gi: GitHubIssue, m: IssueMutation, ghost mem: Memory)
      requires Valid() && m.number in issues && issues[m.number] == gi && m.number != 0 && !m.notExist
      requires Mem() == mem.(issues := mem.issues[m.number := Entered(mem, m)])
      modifies this`users, this`logins, this`userObjects, this`milestones, this`labels, this`views, userObjects, gi
      ensures Valid() && Mem() == Process(mem, m)
    {
      assert gi.number == m.number && views[m.number] == Entered(mem, m);
      UpdateTwice(mem.issues, m.number, Entered(mem, m), Amended(Entered(mem, m), m));
      AmendIssue(gi, m);
    }

    // ---- Computing a mutation ----

    lemma IsWired()
      requires Valid()
      ensures Wired(Mem())
    {
      forall n | n in views ensures WiredIssue(logins, views[n]) {
        assert IssueOk(issues[n], views[n]);
        PeopleAreKnown(issues[n], views[n]);
      }
    }

    lemma PeopleAreKnown(gi: GitHubIssue, view: Issue)
      requires users.Keys == logins.Keys && gi.HoldsPeople(view) && WiresPeople(gi)
      ensures WiredIssue(logins, view)
    {
      forall id | id in view.assignees ensures id in users {
        var i :| 0 <= i < |view.assignees| && view.assignees[i] == id;
        assert gi.assignees[i].id == id;
      }
      assert gi.user != null ==> [gi.user][0].id in users;
      assert gi.closedBy != null ==> [gi.closedBy][0].id in users;
    }

    method NewGithubUserProto(existing: GitHubUser?, g: Option<ApiUser>, ghost id: Option<int>) returns (r: Option<UserProto>)
      requires ValidUsers() && HasId(existing, id) && (existing != null ==> Interned([existing]))
      ensures id.Some? ==> id.value in logins
      ensures r == DiffUser(logins, id, g)
    {
      assert existing != null ==> [existing][0] == existing;
      if g.None? {
        return None;
      }
      if existing == null || existing.login != g.value.login {
        return Some(UserProto(g.value.id, g.value.login));
      }
      return None;
    }

    method FindNewAssignees(existing: seq<GitHubUser>, current: seq<ApiUser>, ghost ids: seq<int>) returns (r: seq<UserProto>)
      requires ValidUsers() && HaveIds(existing, ids) && Interned(existing)
      ensures forall id | id in ids :: id in logins
      ensures r == NewAssignees(logins, ids, current)
    {
      var mp := ByUserID(existing, ids);
      r := [];
      for k := 0 to |current|
        invariant r == NewAssignees(logins, ids, current[..k])
      {
        assert current[..k + 1][..k] == current[..k];
        var u := current[k];
        if u.id !in mp || mp[u.id].login != u.login {
          r := r + [UserProto(u.id, u.login)];
        }
      }
      assert current[..|current|] == current;
    }

    method FindDeletedAssignees(existing: seq<GitHubUser>, current: seq<ApiUser>, ghost ids: seq<int>) returns (r: seq<int>)
      requires HaveIds(existing, ids)
      ensures r == DeletedAssignees(ids, current)
    {
      var mp := set u | u in current :: u.id;
      r := [];
      for k := 0 to |existing|
        invariant r == DeletedAssignees(ids[..k], current)
      {
        assert ids[..k + 1][..k] == ids[..k];
        if existing[k].id !in mp {
          r := r + [existing[k].id];
        }
      }
      assert ids[..|existing|] == ids;
    }

    /** diffUser, diffClosedBy and diffAssignees. */
    method DiffPeople(gi: GitHubIssue, b: ApiIssue, ghost view: Issue)
      returns (user: Option<UserProto>, closedBy: Option<UserProto>, more: seq<UserProto>, gone: seq<int>)
      requires ValidUsers() && gi.HoldsPeople(view) && WiresPeople(gi)
      ensures WiredIssue(logins, view)
      ensures user == DiffUser(logins, view.user, b.user) && closedBy == DiffUser(logins, view.closedBy, b.closedBy)
      ensures more == NewAssignees(logins, view.assignees, b.assignees)
      ensures gone == DeletedAssignees(view.assignees, b.assignees)
    {
      PeopleAreKnown(gi, view);
      user := NewGithubUserProto(gi.user, b.user, view.user);
      closedBy := NewGithubUserProto(gi.closedBy, b.closedBy, view.closedBy);
      more := FindNewAssignees(gi.assignees, b.assignees, view.assignees);
      gone := FindDeletedAssignees(gi.assignees, b.assignees, view.assignees);
    }

    /** The diff methods, for an issue a that is in memory or a blank one. */
    method DiffWith(a: GitHubIssue, isKnown: bool, b: ApiIssue, ghost view: Issue) returns (m: IssueMutation)
      requires Valid() && IssueOk(a, view) && view == Before(Mem(), b.number) && isKnown == (b.number in issues)
      requires forall i :: 0 <= i < |b.labels| ==> b.labels[i].id != 0
      ensures Wired(Mem()) && IsDiff(Mem(), b, m)
    {
      IsWired();
      var user, closedBy, more, gone := DiffPeople(a, b, view);
      var remove, add := DiffLabels(isKnown, a.labels, b.labels);
      m := a.DiffPlain(isKnown, b, view);
      m := m.(user := user, closedBy := closedBy, assignees := more, deletedAssignees := gone, removeLabel := remove, addLabel := add);
    }

    /** githubIssueDiffer.Diff. No mutation is reported when nothing changed. */
    method Diff(b: ApiIssue) returns (m: IssueMutation, changed: bool)
      requires Valid()
      requires forall i :: 0 <= i < |b.labels| ==> b.labels[i].id != 0
      ensures Wired(Mem()) && IsDiff(Mem(), b, m)
      ensures changed <==> HasChanges(Mem(), b, m)
    {
      var a;
      var isKnown := b.number in issues;
      if isKnown {
        a := issues[b.number];
        assert IssueOk(a, views[b.number]);
      } else {
        a := new GitHubIssue(b.number);
      }
      m := DiffWith(a, isKnown, b, Before(Mem(), b.number));
      changed :=
        || !isKnown || m.created.Some? || m.updated.Some? || m.closedAt.Some? || m.user.Some? || m.closedBy.Some?
        || m.bodyChange.Some? || m.title != "" || DiffMilestone(a.milestone, b.milestone).0
        || m.assignees != [] || m.deletedAssignees != [] || m.closed.Some? || m.locked.Some?
        || m.removeLabel != [] || m.addLabel != [];
    }

    /** One poll of an issue on the leader: newMutationFromIssue, then addMutation unless there is nothing to add. */
    method Poll(b: ApiIssue) returns (m: IssueMutation, changed: bool)
      requires Valid() && Sane(b)
      modifies this, userObjects, issueObjects
      ensures Valid()
      ensures old(Wired(Mem())) && old(IsDiff(Mem(), b, m)) && Mem() == old(Polled(Mem(), b, m))
      ensures changed <==> old(!Current(Mem(), b))
      ensures Became(Mem(), b, old(Before(Mem(), b.number))) <==>
                old(SameLoginSameUser(Mem(), b) && (InStep(Before(Mem(), b.number), b) || !Current(Mem(), b)))
      ensures !changed ==> Mem() == old(Mem())
    {
      m, changed := Diff(b);
      ChangesExactly(Mem(), b, m);
      PollingBecomes(Mem(), b, m);
      if changed {
        ProcessIssueMutation(m);
      }
    }
  }

  lemma UpdateTwice(views: map<int, Issue>, n: int, a: Issue, b: Issue)
    ensures views[n := a][n := b] == views[n := b]
  {
  }
}
