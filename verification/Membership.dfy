/** Which issues a filtered list holds: the client's tri-state verdict against the server's filter. */
module Membership {
  import opened IssueModel

  /** `None` is a field the filter does not carry. */
  datatype Filter = Filter(
    assigneeId: Option<Id>,
    assigneeIds: Option<seq<Id>>,
    assigneeTypes: Option<seq<Actor>>,
    creatorId: Option<Id>,
    projectId: Option<Id>,
    involvesUserId: Option<Id>)

  const NO_FILTER := Filter(None, None, None, None, None, None)

  /** The server contract a list key encodes. */
  datatype Contract = Contract(scope: Option<string>, filter: Filter)

  datatype Verdict = Yes | No | Unknown

  datatype Dims = Dims(assignee: bool, project: bool, status: bool)

  // ----- the client's rules

  /** The dimensions a mutation patch moves, judged against the freshest cached entity. */
  function IssueChangedDims(p: Patch, base: Option<Issue>): Dims
  {
    Dims(
      (p.assigneeId.Some? && (base.None? || base.value.assigneeId != p.assigneeId.value)) ||
      (p.assigneeType.Some? && (base.None? || base.value.assigneeType != p.assigneeType.value)),
      p.projectId.Some? && (base.None? || base.value.projectId != p.projectId.value),
      p.status.Some? && (base.None? || base.value.status != p.status.value))
  }

  predicate ListFilterDependsOn(c: Contract, changed: Dims)
  {
    if c.scope == Some("all") then changed.assignee else
      || (changed.assignee && (c.filter.assigneeId.Some? || c.filter.assigneeIds.Some? ||
                               c.filter.assigneeTypes.Some? || c.filter.involvesUserId.Some?))
      || (changed.project && c.filter.projectId.Some?)
  }

  /** One filter field: `want` absent passes, `have` absent is undecidable. */
  function Judge<T>(want: bool, have: Option<T>, hit: T -> bool): Verdict
  {
    if !want then Yes else if have.None? then Unknown else if hit(have.value) then Yes else No
  }

  function Both(a: Verdict, b: Verdict): Verdict
  {
    if a.No? || b.No? then No else if a.Unknown? || b.Unknown? then Unknown else Yes
  }

  function IssueMatchesListFilter(issue: Patch, c: Contract): Verdict
  {
    if c.scope == Some("all") then Unknown else
      var f := c.filter;
      Both(Judge(f.assigneeId.Some?, issue.assigneeId, a => a == f.assigneeId),
      Both(Judge(f.assigneeIds.Some?, issue.assigneeId, (a: Option<Id>) => a.Some? && f.assigneeIds.Some?
        && a.value in f.assigneeIds.value),
      Both(Judge(f.assigneeTypes.Some?, issue.assigneeType, (t: Option<Actor>) => t.Some? && f.assigneeTypes.Some?
        && t.value in f.assigneeTypes.value),
      Both(Judge(f.creatorId.Some?, issue.creatorId, a => Some(a) == f.creatorId),
      Both(Judge(f.projectId.Some?, issue.projectId, a => a == f.projectId),
           if f.involvesUserId.Some? then Unknown else Yes)))))
  }

  // ----- the server's rules

  /** The agent-ownership graph behind `involves_user_id`: user, assignee type, assignee id. */
  type Involvement = (Id, Option<Actor>, Option<Id>) -> bool

  /** The times of a row. The client carries them, but no rule of the cache reads them, and an optimistic write
      leaves them as they are; so they are kept beside the row. */
  datatype Stamp = Stamp(createdAt: int, updatedAt: int)

  datatype Server = Server(issues: map<Id, Issue>, involves: Involvement, stamps: Id -> Stamp)

  datatype DateField = CreatedAt | UpdatedAt

  /** The date range of a list query. */
  datatype DateRange = DateRange(field: DateField, start: int, end: int)

  predicate Inside(t: Stamp, range: Option<DateRange>)
  {
    range.Some? ==>
      var at := if range.value.field.CreatedAt? then t.createdAt else t.updatedAt;
      range.value.start <= at < range.value.end
  }

  /** The part of the server that a list with this date range can show and counts. */
  ghost function InRange(w: Server, range: Option<DateRange>): Server
  {
    Server(map id | id in w.issues && Inside(w.stamps(id), range) :: w.issues[id], w.involves, w.stamps)
  }

  /** List queries only ever return rows of these kinds. */
  predicate Listed(i: Issue) { i.kind != Epic }

  predicate Sent(s: Option<Id>) { s.Some? && s.value != "" }

  /** The WHERE clause for one filter. Empty strings and empty lists are never sent. */
  predicate FilterHolds(i: Issue, f: Filter, involves: Involvement)
  {
    && (Sent(f.assigneeId) ==> i.assigneeId == f.assigneeId)
    && (f.assigneeIds.Some? && f.assigneeIds.value != [] ==>
      i.assigneeId.Some? && i.assigneeId.value in f.assigneeIds.value)
    && (f.assigneeTypes.Some? && f.assigneeTypes.value != [] ==>
      i.assigneeType.Some? && i.assigneeType.value in f.assigneeTypes.value)
    && (Sent(f.creatorId) ==> i.creatorId == f.creatorId.value)
    && (Sent(f.projectId) ==> i.projectId == f.projectId)
    && (Sent(f.involvesUserId) ==> involves(f.involvesUserId.value, i.assigneeType, i.assigneeId))
  }

  predicate Belongs(i: Issue, f: Filter, involves: Involvement)
  {
    Listed(i) && FilterHolds(i, f, involves)
  }

  // ----- soundness

  /** A filter field that is present but dropped from the request. */
  predicate HasEmptyPart(f: Filter)
  {
    f.assigneeId == Some("") || f.assigneeIds == Some([]) || f.assigneeTypes == Some([]) ||
    f.creatorId == Some("") || f.projectId == Some("")
  }

  /** Server entities carry real ids. */
  predicate RealIds(i: Issue)
  {
    i.assigneeId != Some("") && i.creatorId != "" && i.projectId != Some("")
  }

  /** On a full entity the verdict Yes means that a list query without a date range returns it, epics aside. */
  lemma YesIsRight(i: Issue, c: Contract, involves: Involvement)
    requires IssueMatchesListFilter(AsPatch(i), c) == Yes
    ensures c.scope != Some("all") && FilterHolds(i, c.filter, involves)
    ensures Belongs(i, c.filter, involves) <==> i.kind != Epic
  {
  }

  /** For an issue the server does list, the client says No exactly when some part of the filter is empty. */
  lemma NoIsWrongExactlyOnEmptyParts(i: Issue, c: Contract, involves: Involvement)
    requires c.scope != Some("all") && RealIds(i) && FilterHolds(i, c.filter, involves)
    ensures IssueMatchesListFilter(AsPatch(i), c) == No <==> HasEmptyPart(c.filter)
  {
  }

  /** A full entity is undecidable exactly when the filter asks who is involved and the server's filter holds
      in every other part. */
  lemma UndecidableExactlyOnInvolves(i: Issue, c: Contract, involves: Involvement)
    requires c.scope != Some("all") && RealIds(i) && !HasEmptyPart(c.filter)
    ensures IssueMatchesListFilter(AsPatch(i), c) == Unknown <==>
      c.filter.involvesUserId.Some? && FilterHolds(i, c.filter.(involvesUserId := None), involves)
  {
  }

  /** The flags name every membership dimension that really moved. */
  ghost predicate Covers(changed: Dims, before: Issue, after: Issue)
  {
    && (before.assigneeId != after.assigneeId || before.assigneeType != after.assigneeType ==> changed.assignee)
    && (before.projectId != after.projectId ==> changed.project)
    && (before.status != after.status ==> changed.status)
  }

  lemma IndependentListsKeepMembership(before: Issue, after: Issue, c: Contract, changed: Dims, involves: Involvement)
    requires c.scope != Some("all") && Covers(changed, before, after) && before.creatorId == after.creatorId
    requires !ListFilterDependsOn(c, changed)
    ensures FilterHolds(before, c.filter, involves) == FilterHolds(after, c.filter, involves)
    ensures IssueMatchesListFilter(AsPatch(before), c) == IssueMatchesListFilter(AsPatch(after), c)
  {
  }

  /** The flags a mutation computes against a base that is absent or fresh always cover the change. */
  lemma MutationDimsCover(before: Issue, p: Patch, base: Option<Issue>)
    requires base.None? || base.value == before
    ensures Covers(IssueChangedDims(p, base), before, Merge(before, p))
  {
  }
}
