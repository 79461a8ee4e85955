/** The membership flags the server computes for an update, and the moves they hide. */
module ServerFlags {
  import opened IssueModel
  import opened CacheHelpers
  import opened Membership
  import opened Agreement
  import opened RulesTable
  import opened WsUpdates

  predicate NonNull<T>(field: Option<Option<T>>) { field.Some? && field.value.Some? }

  // ----- the assignee flag

  /** The assignee fields of an update request: absent, explicit null, or a value. */
  datatype AssigneeRequest = AssigneeRequest(assigneeType: Option<Option<Actor>>, assigneeId: Option<Option<Id>>)

  predicate AssigneeMoved(before: Issue, after: Issue)
  {
    before.assigneeType != after.assigneeType || before.assigneeId != after.assigneeId
  }

  /** An explicit null decodes to the same nil pointer as an absent field. */
  predicate ServerAssigneeFlag(req: AssigneeRequest, before: Issue, after: Issue)
  {
    (NonNull(req.assigneeType) || NonNull(req.assigneeId)) && AssigneeMoved(before, after)
  }

  /** The flag hides a move exactly when the request unassigns: it clears what was set and sets nothing. */
  lemma FlagHidesExactlyUnassign(req: AssigneeRequest, before: Issue, after: Issue)
    requires after.assigneeType == Or(req.assigneeType, before.assigneeType)
    requires after.assigneeId == Or(req.assigneeId, before.assigneeId)
    ensures AssigneeMoved(before, after) && !ServerAssigneeFlag(req, before, after) <==>
      && !NonNull(req.assigneeType) && !NonNull(req.assigneeId)
      && (|| (req.assigneeType == Some(None) && before.assigneeType.Some?)
          || (req.assigneeId == Some(None) && before.assigneeId.Some?))
  {
  }

  /** So an unassigned card stays on every loaded list it was assigned to, unflagged. */
  lemma UnassignedCardStays(data: ListCache, w: Server, w': Server, user: Id, id: Id, patch: Patch, base: Option<Issue>)
    requires user != "" && Agrees(data, NO_FILTER.(assigneeId := Some(user)), w) && FindIssueLocation(data, id).Some?
    requires patch.assigneeId == Some(None) && patch.assigneeType == Some(None)
    requires id in w.issues && Paginated(Merge(w.issues[id], patch).status)
    requires w'.issues == w.issues[id := Merge(w.issues[id], patch)] && w'.involves == w.involves
    ensures var c := Contract(Some("assigned"), NO_FILTER.(assigneeId := Some(user)));
      var flag := ServerAssigneeFlag(AssigneeRequest(Some(None), Some(None)), w.issues[id], Merge(w.issues[id], patch));
      var o := Reconcile(data, c, id, patch, WsDims(base, patch, Meta(Some(flag), Some(false), Some(false))), base);
      !o.stale && !Agrees(o.next, c.filter, w')
  {
    PatchedAgrees(data, w, w', NO_FILTER.(assigneeId := Some(user)), id, patch);
  }

  // ----- the project flag

  /** The columns an update derives the project from. */
  datatype Row = Row(kind: Kind, projectId: Option<Id>, epicId: Option<Id>, parentId: Option<Id>)

  /** The hierarchy fields of an update request. */
  datatype Request = Request(
    kind: Option<Option<Kind>>,
    epicId: Option<Option<Id>>,
    parentId: Option<Option<Id>>,
    projectId: Option<Option<Id>>)

  /** The projects of the epics, and the work items that can be parents. */
  datatype Hierarchy = Hierarchy(epics: map<Id, Id>, items: map<Id, Row>)

  predicate Touched(req: Request) { req.kind.Some? || req.epicId.Some? || req.parentId.Some? || req.projectId.Some? }

  /** Setting a parent makes a subtask, clearing it a work item, unless the request names the kind. */
  function FinalKind(prev: Row, req: Request): Kind
  {
    if req.parentId.Some? && req.kind.None? then (if req.parentId.value.Some? then Subtask else WorkItem)
    else Or(Or(req.kind, None), prev.kind)
  }

  /** The stored row; no value when the request is refused. Epics have an endpoint of their own. */
  function Updated(prev: Row, req: Request, h: Hierarchy): Option<Row>
  {
    var project, epic := Or(req.projectId, prev.projectId), Or(req.epicId, prev.epicId);
    var parent := Or(req.parentId, prev.parentId);
    var kind := FinalKind(prev, req);
    if prev.kind.Epic? || kind.Epic? then None
    else if !Touched(req) then Some(prev)
    else if kind.WorkItem? then
      if parent.Some? then None
      else if epic.None? then Some(Row(kind, project, epic, parent))
      else if epic.value !in h.epics || (project.Some? && project.value != h.epics[epic.value]) then None
      else Some(Row(kind, Some(h.epics[epic.value]), epic, parent))
    else
      if parent.None? || parent.value !in h.items then None
      else Some(Row(kind, h.items[parent.value].projectId, h.items[parent.value].epicId, parent))
  }

  /** What the server stores is consistent: a subtask lies where its parent lies, a work item under an epic lies in the
      epic's project, and a work item has no parent. The kind is the one asked for, else it follows the parent. */
  lemma StoredHierarchy(prev: Row, req: Request, h: Hierarchy)
    requires Updated(prev, req, h).Some? && Touched(req)
    ensures var row := Updated(prev, req, h).value;
      && (row.kind.Subtask? ==> row.parentId.Some? && row.parentId.value in h.items)
      && (row.kind.Subtask? ==> row.projectId == h.items[row.parentId.value].projectId)
      && (row.kind.Subtask? ==> row.epicId == h.items[row.parentId.value].epicId)
      && (row.kind.WorkItem? ==> row.parentId.None?)
      && (row.kind.WorkItem? && row.epicId.Some? ==>
            row.epicId.value in h.epics && row.projectId == Some(h.epics[row.epicId.value]))
      && (row.kind.WorkItem? && row.epicId.None? ==> row.projectId == Or(req.projectId, prev.projectId))
      && row.kind == if NonNull(req.kind) then req.kind.value.value
                     else if req.kind.None? && NonNull(req.parentId) then Subtask
                     else if req.kind.None? && req.parentId.Some? then WorkItem
                     else prev.kind
  {
  }

  /** A request that names only a parent makes a subtask of a work item, and one that clears it makes it a work item
      again; both are accepted when what they lead to exists. */
  lemma ParentDecidesKind(prev: Row, parent: Option<Id>, h: Hierarchy)
    requires !prev.kind.Epic? && (parent.Some? ==> parent.value in h.items)
    requires prev.epicId.Some? ==>
      prev.epicId.value in h.epics && (prev.projectId.Some? ==> prev.projectId == Some(h.epics[prev.epicId.value]))
    ensures var row := Updated(prev, Request(None, None, Some(parent), None), h);
      row.Some? && row.value.parentId == parent && row.value.kind == if parent.Some? then Subtask else WorkItem
  {
  }

  /** The flag of a single update looks for the field, the flag of a batch for a value in it. */
  predicate SingleProjectFlag(req: Request, prev: Row, row: Row)
  {
    req.projectId.Some? && prev.projectId != row.projectId
  }

  predicate BatchProjectFlag(req: Request, prev: Row, row: Row)
  {
    NonNull(req.projectId) && prev.projectId != row.projectId
  }

  /** A single update hides a project move exactly when it leaves the project out and the hierarchy brings another:
      a work item without a project that is put under an epic, or a subtask whose parent lies elsewhere. */
  lemma SingleFlagHidesExactly(prev: Row, req: Request, h: Hierarchy)
    requires Updated(prev, req, h).Some?
    ensures var row := Updated(prev, req, h).value;
      row.projectId != prev.projectId && !SingleProjectFlag(req, prev, row) <==>
        && Touched(req) && req.projectId.None?
        && (|| (FinalKind(prev, req).WorkItem? && Or(req.epicId, prev.epicId).Some? && prev.projectId.None?)
            || (FinalKind(prev, req).Subtask?
              && h.items[Or(req.parentId, prev.parentId).value].projectId != prev.projectId))
  {
  }

  /** A batch hides those moves and every cleared project as well. */
  lemma BatchFlagHidesExactly(prev: Row, req: Request, h: Hierarchy)
    requires Updated(prev, req, h).Some?
    ensures var row := Updated(prev, req, h).value;
      row.projectId != prev.projectId && !BatchProjectFlag(req, prev, row) <==>
        || (row.projectId != prev.projectId && !SingleProjectFlag(req, prev, row))
        || (req.projectId == Some(None) &&
              if FinalKind(prev, req).Subtask?
                then h.items[Or(req.parentId, prev.parentId).value].projectId != prev.projectId
              else var epic := Or(req.epicId, prev.epicId);
                prev.projectId != if epic.Some? then Some(h.epics[epic.value]) else None)
  {
  }

  /** The list of one project. */
  function ProjectList(p: Id): Contract { Contract(Some("project"), NO_FILTER.(projectId := Some(p))) }

  const NOT_FLAGGED := Meta(Some(false), Some(false), Some(false))

  /** A hidden project move is unseen by every project list: a loaded card stays, a new one does not come, nothing is
      flagged, and the list is right exactly when it counts the row in the same column before and after, or never. */
  lemma HiddenMoveExactly(data: ListCache, w: Server, w': Server, p: Id, id: Id, patch: Patch, base: Option<Issue>)
    requires p != "" && Agrees(data, ProjectList(p).filter, w)
    requires id in w.issues && w'.issues == w.issues[id := Merge(w.issues[id], patch)] && w'.involves == w.involves
    requires Listed(w.issues[id]) && Listed(Merge(w.issues[id], patch))
    requires w.issues[id].status == Merge(w.issues[id], patch).status && Paginated(w.issues[id].status)
    ensures var o := Reconcile(data, ProjectList(p), id, patch, WsDims(base, patch, NOT_FLAGGED), base);
      !o.stale && (Agrees(o.next, ProjectList(p).filter, w') <==>
                     (w.issues[id].projectId == Some(p) <==> Merge(w.issues[id], patch).projectId == Some(p)))
  {
    var f, after := ProjectList(p).filter, Merge(w.issues[id], patch);
    if FindIssueLocation(data, id).Some? {
      LoadedBelongs(data, w, f, id);
      PatchedAgrees(data, w, w', f, id, patch);
    } else {
      AbsentAgrees(data, data, w, w', f, id, after);
      assert GetBucket(data, after.status).total == GetBucket(data, after.status).total;
    }
  }
}
