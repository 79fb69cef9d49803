/**
 Issues of one GitHub repository as values: the mutation that githubIssueDiffer computes and what
 processing it does to the corpus (maintner/github.go).
 */
module GitHubSpec {
  import opened Basics

  /** What a missing protobuf timestamp reads as: the Unix epoch, which is not the zero time. */
  const EPOCH := 1

  // ---- The GitHub API's view ----

  datatype ApiUser = ApiUser(id: int, login: string)
  datatype ApiMilestone = ApiMilestone(id: int, number: int, title: string)
  datatype ApiLabel = ApiLabel(id: int, name: string)

  datatype ApiIssue = ApiIssue(
    number: int, isPullRequest: bool,
    createdAt: int, updatedAt: int, closedAt: int,
    user: Option<ApiUser>, closedBy: Option<ApiUser>,
    body: string, title: string,
    milestone: Option<ApiMilestone>,
    assignees: seq<ApiUser>,
    isClosed: bool, isLocked: bool,
    labels: seq<ApiLabel>)

  // ---- The corpus's view. Users, labels and milestones are shared, so issues refer to them by ID ----

  datatype MilestoneRef = UnknownMilestone | NoMilestone | InMilestone(id: int)

  datatype Issue = Issue(
    notExist: bool, closed: bool, locked: bool, pullRequest: bool,
    user: Option<int>, assignees: seq<int>,
    created: int, updated: int, closedAt: int, closedBy: Option<int>,
    title: string, body: string,
    milestone: MilestoneRef, labels: set<int>)

  const BLANK_ISSUE := Issue(false, false, false, false, None, [], ZERO_TIME, ZERO_TIME, ZERO_TIME, None, "", "", UnknownMilestone, {})

  datatype MilestoneInfo = MilestoneInfo(title: string, number: int)

  datatype Memory = Memory(
    users: map<int, string>,
    milestones: map<int, MilestoneInfo>,
    labels: map<int, string>,
    issues: map<int, Issue>)

  /** Every user an issue refers to is known. */
  ghost predicate Wired(mem: Memory) {
    forall n | n in mem.issues :: WiredIssue(mem.users, mem.issues[n])
  }

  ghost predicate WiredIssue(users: map<int, string>, gi: Issue) {
    && (gi.user.Some? ==> gi.user.value in users)
    && (gi.closedBy.Some? ==> gi.closedBy.value in users)
    && (forall id | id in gi.assignees :: id in users)
  }

  // ---- The mutation ----

  datatype UserProto = UserProto(id: int, login: string)

  datatype IssueMutation = IssueMutation(
    number: int, notExist: bool, pullRequest: bool,
    created: Option<int>, updated: Option<int>, closedAt: Option<int>,
    user: Option<UserProto>, closedBy: Option<UserProto>,
    bodyChange: Option<string>, title: string,
    noMilestone: bool, milestoneId: int, milestoneNum: int, milestoneTitle: string,
    assignees: seq<UserProto>, deletedAssignees: seq<int>,
    closed: Option<bool>, locked: Option<bool>,
    removeLabel: seq<int>, addLabel: seq<ApiLabel>)

  // ---- Computing it ----

  function DiffTime(memTime: int, githubTime: int): Option<int> {
    if githubTime == ZERO_TIME || memTime == githubTime then None else Some(githubTime)
  }

  /** newGithubUserProto. Only the login is compared. */
  function DiffUser(users: map<int, string>, existing: Option<int>, g: Option<ApiUser>): Option<UserProto>
    requires existing.Some? ==> existing.value in users
  {
    if g.None? then None
    else if existing.None? then Some(UserProto(g.value.id, g.value.login))
    else if users[existing.value] != g.value.login then Some(UserProto(g.value.id, g.value.login))
    else None
  }

  function DiffMilestone(a: MilestoneRef, b: Option<ApiMilestone>): (r: (bool, bool, ApiMilestone)) {
    var none := ApiMilestone(0, 0, "");
    if a.NoMilestone? && b.None? then (false, false, none)
    else if b.Some? && (a.InMilestone? || a.NoMilestone?) && (if a.InMilestone? then a.id else 0) == b.value.id then (false, false, none)
    else if b.Some? then (true, false, b.value)
    else (true, true, none)
  }

  /** newAssignees: users that are new, and users whose login changed. */
  function NewAssignees(users: map<int, string>, existing: seq<int>, current: seq<ApiUser>): seq<UserProto>
    requires forall id | id in existing :: id in users
  {
    if current == [] then []
    else
      var rest, u := NewAssignees(users, existing, current[..|current| - 1]), current[|current| - 1];
      if u.id in existing && users[u.id] == u.login then rest else rest + [UserProto(u.id, u.login)]
  }

  /** deletedAssignees: users that are no longer assigned. */
  function DeletedAssignees(existing: seq<int>, current: seq<ApiUser>): seq<int> {
    if existing == [] then []
    else
      var rest, id := DeletedAssignees(existing[..|existing| - 1], current), existing[|existing| - 1];
      if id in UserIds(current) then rest else rest + [id]
  }

  function UserIds(us: seq<ApiUser>): set<int> {
    set u | u in us :: u.id
  }

  function LabelIds(ls: seq<ApiLabel>): set<int> {
    set l | l in ls :: l.id
  }

  /** The labels whose ID is new. Of several with one ID the last counts. */
  function NewLabels(known: set<int>, ls: seq<ApiLabel>): set<ApiLabel> {
    set i | 0 <= i < |ls| && ls[i].id !in known && (forall j :: i < j < |ls| ==> ls[j].id != ls[i].id) :: ls[i]
  }

  /** What Diff compares with: the issue in memory, or an empty one if there is none. */
  function Before(mem: Memory, number: int): Issue {
    if number in mem.issues then mem.issues[number] else BLANK_ISSUE
  }

  /** The label fast path: as many labels as before, and all of them known. */
  predicate SameLabels(known: set<int>, ls: seq<ApiLabel>) {
    |known| == |ls| && forall i :: 0 <= i < |ls| ==> ls[i].id in known
  }

  /** The labels to remove and to add, each listed in any order. */
  ghost predicate IsLabelDiff(isKnown: bool, known: set<int>, ls: seq<ApiLabel>, remove: seq<int>, add: seq<ApiLabel>) {
    if isKnown && SameLabels(known, ls) then remove == [] && add == []
    else
      && (set id | id in remove) == known - LabelIds(ls)
      && (set l | l in add) == NewLabels(known, ls)
  }

  /** m says what changed of the fields that are neither users nor labels. */
  ghost predicate IsPlainDiff(known: bool, a: Issue, b: ApiIssue, m: IssueMutation) {
    && m.number == b.number && !m.notExist && m.pullRequest == b.isPullRequest
    && m.created == DiffTime(a.created, b.createdAt)
    && m.updated == DiffTime(a.updated, b.updatedAt)
    && m.closedAt == DiffTime(a.closedAt, b.closedAt)
    && m.bodyChange == (if known && a.body == b.body then None else Some(b.body))
    && m.title == (if known && a.title == b.title then "" else b.title)
    && m.noMilestone == DiffMilestone(a.milestone, b.milestone).1
    && ApiMilestone(m.milestoneId, m.milestoneNum, m.milestoneTitle) == DiffMilestone(a.milestone, b.milestone).2
    && m.closed == (if known && a.closed == b.isClosed then None else Some(b.isClosed))
    && m.locked == (if a.locked == b.isLocked then None else Some(b.isLocked))
  }

  /** m says what changed between the issue in memory and b. Labels may be listed in any order. */
  ghost predicate IsDiff(mem: Memory, b: ApiIssue, m: IssueMutation)
    requires Wired(mem)
  {
    var known, a := b.number in mem.issues, Before(mem, b.number);
    && IsPlainDiff(known, a, b, m)
    && m.user == DiffUser(mem.users, a.user, b.user)
    && m.closedBy == DiffUser(mem.users, a.closedBy, b.closedBy)
    && m.assignees == NewAssignees(mem.users, a.assignees, b.assignees)
    && m.deletedAssignees == DeletedAssignees(a.assignees, b.assignees)
    && IsLabelDiff(known, a.labels, b.labels, m.removeLabel, m.addLabel)
  }

  /** Diff returns a mutation exactly when this holds of it. A new issue always has one. */
  ghost predicate HasChanges(mem: Memory, b: ApiIssue, m: IssueMutation)
    requires Wired(mem)
  {
    || b.number !in mem.issues
    || m.created.Some? || m.updated.Some? || m.closedAt.Some? || m.user.Some? || m.closedBy.Some?
    || m.bodyChange.Some? || m.title != ""
    || DiffMilestone(Before(mem, b.number).milestone, b.milestone).0
    || m.assignees != [] || m.deletedAssignees != []
    || m.closed.Some? || m.locked.Some?
    || m.removeLabel != [] || m.addLabel != []
  }

  // ---- Processing it ----

  /** getUser: the user of that ID, with its login brought up to date. */
  function Learn(users: map<int, string>, u: UserProto): map<int, string> {
    if u.id in users && u.login == "" then users else users[u.id := u.login]
  }

  function LearnOption(users: map<int, string>, u: Option<UserProto>): map<int, string> {
    match u
    case None => users
    case Some(u) => Learn(users, u)
  }

  function LearnAll(users: map<int, string>, us: seq<UserProto>): map<int, string> {
    if us == [] then users else Learn(LearnAll(users, us[..|us| - 1]), us[|us| - 1])
  }

  /** The additions of setAssigneesFromProto: who is an assignee is decided by the list as it was. */
  function Added(existing: seq<int>, us: seq<UserProto>): seq<int> {
    if us == [] then existing
    else
      var rest, u := Added(existing, us[..|us| - 1]), us[|us| - 1];
      if u.id in existing then rest else rest + [u.id]
  }

  function Without(ids: seq<int>, gone: seq<int>): seq<int> {
    if ids == [] then []
    else
      var rest, id := Without(ids[..|ids| - 1], gone), ids[|ids| - 1];
      if id in gone then rest else rest + [id]
  }

  function LearnLabels(labels: map<int, string>, ls: seq<ApiLabel>): map<int, string> {
    if ls == [] then labels
    else
      var rest, l := LearnLabels(labels, ls[..|ls| - 1]), ls[|ls| - 1];
      if l.id in rest && l.name == "" then rest else rest[l.id := l.name]
  }

  function LearnMilestone(ms: map<int, MilestoneInfo>, m: IssueMutation): map<int, MilestoneInfo> {
    if m.noMilestone || m.milestoneId == 0 then ms
    else
      var was := if m.milestoneId in ms then ms[m.milestoneId] else MilestoneInfo("", 0);
      ms[m.milestoneId := MilestoneInfo(if m.milestoneTitle != "" then m.milestoneTitle else was.title,
                                        if m.milestoneNum != 0 then m.milestoneNum else was.number)]
  }

  function Or<T>(change: Option<T>, was: T): T {
    match change
    case None => was
    case Some(v) => v
  }

  function IdOr(change: Option<UserProto>, was: Option<int>): Option<int> {
    match change
    case None => was
    case Some(u) => Some(u.id)
  }

  /** The fields a mutation sets on an issue that exists. */
  function Amended(gi: Issue, m: IssueMutation): Issue {
    gi.(
      updated := Or(m.updated, gi.updated),
      closedAt := Or(m.closedAt, gi.closedAt),
      user := IdOr(m.user, gi.user),
      milestone := if m.noMilestone then NoMilestone else if m.milestoneId != 0 then InMilestone(m.milestoneId) else gi.milestone,
      closedBy := IdOr(m.closedBy, gi.closedBy),
      closed := Or(m.closed, gi.closed),
      locked := Or(m.locked, gi.locked),
      pullRequest := gi.pullRequest || m.pullRequest,
      assignees := Without(Added(gi.assignees, m.assignees), m.deletedAssignees),
      body := Or(m.bodyChange, gi.body),
      title := if m.title != "" then m.title else gi.title,
      labels := gi.labels - (set id | id in m.removeLabel) + LabelIds(m.addLabel))
  }

  /** The issue as the mutation finds it. A new one is born at the mutation's creation time, unless it does not exist. */
  function Entered(mem: Memory, m: IssueMutation): Issue {
    if m.number in mem.issues then mem.issues[m.number].(notExist := m.notExist)
    else if m.notExist then BLANK_ISSUE.(notExist := true)
    else BLANK_ISSUE.(created := Or(m.created, EPOCH))
  }

  /** processGithubIssueMutation. */
  function Process(mem: Memory, m: IssueMutation): Memory {
    if m.number == 0 then mem
    else if m.notExist then mem.(issues := mem.issues[m.number := Entered(mem, m)])
    else
      Memory(LearnAll(LearnOption(LearnOption(mem.users, m.user), m.closedBy), m.assignees),
             LearnMilestone(mem.milestones, m),
             LearnLabels(mem.labels, m.addLabel),
             mem.issues[m.number := Amended(Entered(mem, m), m)])
  }
}
