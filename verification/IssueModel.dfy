/** Issues, partial issues and the bucketed list cache they are kept in. */
module IssueModel {
  datatype Option<+T> = None | Some(value: T)

  type Id = string

  datatype Status = Backlog | Todo | InProgress | InReview | Done | Blocked | Cancelled

  datatype Actor = Member | Agent | Squad

  datatype Kind = Epic | WorkItem | Subtask

  /** `content` stands for every column that no filter, bucket or sort reads. */
  datatype Issue = Issue(
    id: Id,
    kind: Kind,
    status: Status,
    position: real,
    assigneeType: Option<Actor>,
    assigneeId: Option<Id>,
    creatorId: Id,
    projectId: Option<Id>,
    parentId: Option<Id>,
    content: string)

  /** A partial issue: `None` is a field the object does not carry. */
  datatype Patch = Patch(
    kind: Option<Kind>,
    status: Option<Status>,
    position: Option<real>,
    assigneeType: Option<Option<Actor>>,
    assigneeId: Option<Option<Id>>,
    creatorId: Option<Id>,
    projectId: Option<Option<Id>>,
    parentId: Option<Option<Id>>,
    content: Option<string>)

  function Or<T>(o: Option<T>, d: T): T { if o.Some? then o.value else d }

  /** An optional string as a JavaScript condition sees it. */
  predicate Truthy(s: Option<string>) { s.Some? && s.value != "" }

  /** A value that stands twice in a list is counted twice. */
  lemma TwiceInSeq<T>(s: seq<T>, i: nat, j: nat)
    requires i < j < |s| && s[i] == s[j]
    ensures multiset(s)[s[i]] >= 2
  {
    assert s == s[..j] + s[j..];
    assert s[..j][i] == s[i] && s[j..][0] == s[i];
    assert s[i] in multiset(s[..j]) && s[i] in multiset(s[j..]);
  }

  /** The spread of a patch over an issue. */
  function Merge(i: Issue, p: Patch): (r: Issue)
  {
    Issue(i.id, Or(p.kind, i.kind), Or(p.status, i.status), Or(p.position, i.position),
          Or(p.assigneeType, i.assigneeType), Or(p.assigneeId, i.assigneeId), Or(p.creatorId, i.creatorId),
          Or(p.projectId, i.projectId), Or(p.parentId, i.parentId), Or(p.content, i.content))
  }

  function AsPatch(i: Issue): Patch
  {
    Patch(Some(i.kind), Some(i.status), Some(i.position), Some(i.assigneeType), Some(i.assigneeId),
          Some(i.creatorId), Some(i.projectId), Some(i.parentId), Some(i.content))
  }

  /** The spread of a patch over a base that may be missing: a full entity or just the patch. */
  function Overlay(base: Option<Issue>, p: Patch): Patch
  {
    if base.None? then p else AsPatch(Merge(base.value, p))
  }

  datatype Bucket = Bucket(issues: seq<Issue>, total: int)

  /** A partial record from status to bucket. */
  type ListCache = map<Status, Bucket>

  /** The statuses list and board views page through; `Cancelled` is left out of them. */
  const PAGINATED_STATUSES: seq<Status> := [Backlog, Todo, InProgress, InReview, Done, Blocked]

  predicate Paginated(s: Status) { s != Cancelled }
}
