/** Concrete caches, servers and writes at which a loaded list, or the whole cache, falls out of step unflagged. */
module DriftExamples {
  import opened IssueModel
  import opened CacheHelpers
  import opened Membership
  import opened Agreement
  import opened RulesTable
  import opened Coordinator
  import opened Mutations
  import opened WsUpdates
  import opened Drift
  import opened Lifecycle
  import opened ServerFlags
  import opened DateRanges

  const NO_PATCH := Patch(None, None, None, None, None, None, None, None, None)
  const NOBODY: Involvement := (u, t, a) => false
  const UNTIMED: Id -> Stamp := id => Stamp(0, 0)

  // ----- small worlds

  function Item(id: Id, assignee: Option<Id>, project: Option<Id>): Issue
  {
    Issue(id, WorkItem, Todo, 1.0, if assignee.Some? then Some(Member) else None, assignee, "u", project, None, "")
  }

  function World(issues: map<Id, Issue>): Server { Server(issues, NOBODY, UNTIMED) }

  function MyList(user: Id): Contract { Contract(Some("assigned"), NO_FILTER.(assigneeId := Some(user))) }

  function TodoList(cards: seq<Issue>, total: int): ListCache { map[Todo := Bucket(cards, total)] }

  function Assigned(assignee: Option<Id>): Patch
  {
    NO_PATCH.(assigneeType := Some(if assignee.Some? then Some(Member) else None), assigneeId := Some(assignee))
  }

  /** Agreement of a list with one column, in a world with one column. */
  lemma TodoListAgrees(cards: seq<Issue>, f: Filter, w: Server, members: set<Id>)
    requires forall id :: id in w.issues ==> w.issues[id].status == Todo
    requires forall id :: id in members <==> id in w.issues && Belongs(w.issues[id], f, w.involves)
    requires FreshColumn(cards, Todo, w) && forall c :: c in cards ==> c.id in members
    ensures Agrees(TodoList(cards, |members|), f, w)
  {
    assert Members(w, f, Todo) == members;
    forall s | Paginated(s) && s != Todo ensures GetBucket(TodoList(cards, |members|), s).total == Count(w, f, s) {
      assert Members(w, f, s) == {};
    }
  }

  // ----- lists with a date range

  function WithTimes(issues: map<Id, Issue>, stamps: map<Id, Stamp>): Server
  {
    Server(issues, NOBODY, (id: Id) => if id in stamps then stamps[id] else Stamp(0, 0))
  }

  const LAST_WEEK := DateRange(CreatedAt, 10, 17)
  const MINE_OLD := Item("old", Some("me"), None)
  const TIMES: map<Id, Stamp> := map["old" := Stamp(3, 3), "new" := Stamp(12, 12)]
  const BOTH_MINE := WithTimes(map["old" := MINE_OLD, "new" := Item("new", Some("me"), None)], TIMES)
  const NEW_MINE := WithTimes(map["old" := Merge(MINE_OLD, TO_YOU), "new" := Item("new", Some("me"), None)], TIMES)
  const TO_YOU := Assigned(Some("you"))
  const TO_YOU_DIMS := Dims(true, false, false)

  lemma OldIsCountedDown()
    ensures CountsDown(MyList("me"), TO_YOU, TO_YOU_DIMS, Some(MINE_OLD))
    ensures !Reconcile(TodoList([], 1), MyList("me"), "old", TO_YOU, TO_YOU_DIMS, Some(MINE_OLD)).stale
  {
    hide IssueMatchesListFilter;
    DecidedVerdict(MINE_OLD, MyList("me"), NOBODY);
    DecidedVerdict(Merge(MINE_OLD, TO_YOU), MyList("me"), NOBODY);
    assert Overlay(Some(MINE_OLD), TO_YOU) == AsPatch(Merge(MINE_OLD, TO_YOU));
  }

  lemma OldIsReassigned()
    ensures TimedWrite(BOTH_MINE, NEW_MINE, MyList("me"), "old", TO_YOU, TO_YOU_DIMS, Some(MINE_OLD))
  {
    assert NEW_MINE.issues == BOTH_MINE.issues["old" := Merge(MINE_OLD, TO_YOU)];
  }

  lemma OnlyNewIsInRange()
    ensures Agrees(TodoList([], 1), MyList("me").filter, InRange(BOTH_MINE, Some(LAST_WEEK)))
  {
    TodoListAgrees([], MyList("me").filter, InRange(BOTH_MINE, Some(LAST_WEEK)), {"new"});
  }

  /** My issues created last week: one, beyond the loaded cards. An older issue of mine, opened in its detail, is given
      to somebody else: the list loses the unit of the other issue, unflagged. */
  lemma CreatedRangeExample()
    ensures var o := Reconcile(TodoList([], 1), MyList("me"), "old", TO_YOU, TO_YOU_DIMS, Some(MINE_OLD));
      && TimedWrite(BOTH_MINE, NEW_MINE, MyList("me"), "old", TO_YOU, TO_YOU_DIMS, Some(MINE_OLD))
      && Agrees(TodoList([], 1), MyList("me").filter, InRange(BOTH_MINE, Some(LAST_WEEK)))
      && !o.stale && !Agrees(o.next, MyList("me").filter, InRange(NEW_MINE, Some(LAST_WEEK)))
  {
    hide Agrees, Reconcile, TimedWrite, CountsDown, InRange, FindIssueLocation;
    OldIsReassigned();
    OldIsCountedDown();
    OnlyNewIsInRange();
    var c := MyList("me");
    CreatedRangeExactly(TodoList([], 1), BOTH_MINE, NEW_MINE, LAST_WEEK, c, "old", TO_YOU, TO_YOU_DIMS, Some(MINE_OLD));
  }

  const THIS_WEEK := DateRange(UpdatedAt, 10, 17)
  const EARLIER := DateRange(UpdatedAt, 0, 10)
  const ON_BOARD := Contract(None, NO_FILTER)
  const OLD := Item("i", None, None)
  const BEFORE_EDIT := WithTimes(map["i" := OLD], map["i" := Stamp(3, 3)])
  const AFTER_EDIT := WithTimes(map["i" := Merge(OLD, Text("edited"))], map["i" := Stamp(3, 12)])

  lemma EditIsTimedWrite()
    ensures TimedWrite(BEFORE_EDIT, AFTER_EDIT, ON_BOARD, "i", Text("edited"), Dims(false, false, false), Some(OLD))
  {
    assert AFTER_EDIT.issues == BEFORE_EDIT.issues["i" := Merge(OLD, Text("edited"))];
  }

  lemma NothingThisWeek()
    ensures Agrees(TodoList([], 0), NO_FILTER, InRange(BEFORE_EDIT, Some(THIS_WEEK)))
  {
    TodoListAgrees([], NO_FILTER, InRange(BEFORE_EDIT, Some(THIS_WEEK)), {});
  }

  lemma EntersUnseen()
    ensures var none := Dims(false, false, false);
      && !Reconcile(TodoList([], 0), ON_BOARD, "i", Text("edited"), none, Some(OLD)).stale
      && Missed(TodoList([], 0), BEFORE_EDIT, ON_BOARD, false, true, "i", Text("edited"), none, Some(OLD))
  {
    assert !CountsDown(ON_BOARD, Text("edited"), Dims(false, false, false), Some(OLD));
  }

  /** A board of what was updated this week: an older issue is edited, enters the range, and the board, which neither
      shows nor counts it, is left untouched and unflagged. */
  lemma EnteredRangeExample()
    ensures var o := Reconcile(TodoList([], 0), ON_BOARD, "i", Text("edited"), Dims(false, false, false), Some(OLD));
      && TimedWrite(BEFORE_EDIT, AFTER_EDIT, ON_BOARD, "i", Text("edited"), Dims(false, false, false), Some(OLD))
      && Agrees(TodoList([], 0), NO_FILTER, InRange(BEFORE_EDIT, Some(THIS_WEEK)))
      && !o.stale && !Agrees(o.next, NO_FILTER, InRange(AFTER_EDIT, Some(THIS_WEEK)))
  {
    hide Agrees, TimedWrite, Reconcile, Missed, InRange;
    var none := Dims(false, false, false);
    EditIsTimedWrite();
    NothingThisWeek();
    EntersUnseen();
    RangeAgreesExactly(TodoList([], 0), BEFORE_EDIT, AFTER_EDIT, Some(THIS_WEEK), ON_BOARD, "i", Text("edited"), none,
      Some(OLD));
  }

  /** A board of what was last updated before this week: the edited card leaves the range and stays on the board,
      unflagged. */
  lemma LeftRangeExample()
    ensures var o := Reconcile(TodoList([OLD], 1), ON_BOARD, "i", Text("edited"), Dims(false, false, false), Some(OLD));
      && TimedWrite(BEFORE_EDIT, AFTER_EDIT, ON_BOARD, "i", Text("edited"), Dims(false, false, false), Some(OLD))
      && Agrees(TodoList([OLD], 1), NO_FILTER, InRange(BEFORE_EDIT, Some(EARLIER)))
      && !o.stale && !Agrees(o.next, NO_FILTER, InRange(AFTER_EDIT, Some(EARLIER)))
  {
    EditIsTimedWrite();
    TodoListAgrees([OLD], NO_FILTER, InRange(BEFORE_EDIT, Some(EARLIER)), {"i"});
    var none := Dims(false, false, false);
    assert GetBucket(TodoList([OLD], 1), Todo).issues[0].id == "i";
    assert FindIssueLocation(TodoList([OLD], 1), "i").Some?;
    hide Agrees, TimedWrite, FindIssueLocation;
    RangeAgreesExactly(TodoList([OLD], 1), BEFORE_EDIT, AFTER_EDIT, Some(EARLIER), ON_BOARD, "i", Text("edited"), none,
      Some(OLD));
  }

  // ----- an event without flags and without a cached copy

  /** A list of mine with one of my issues beyond its window; somebody takes the issue over, and the event of an older
      backend says so without flags. */
  lemma UnflaggedExample()
    ensures var w := World(map["i" := Item("i", Some("me"), None)]);
      var w' := World(map["i" := Item("i", Some("you"), None)]);
      var changed := WsDims(None, Assigned(Some("you")), NO_FLAGS);
      var o := Reconcile(TodoList([], 1), MyList("me"), "i", Assigned(Some("you")), changed, None);
      && Agrees(TodoList([], 1), MyList("me").filter, w)
      && w'.issues["i"] == Merge(w.issues["i"], Assigned(Some("you")))
      && !o.stale && !Agrees(o.next, MyList("me").filter, w')
  {
    var w := World(map["i" := Item("i", Some("me"), None)]);
    var w' := World(map["i" := Item("i", Some("you"), None)]);
    TodoListAgrees([], MyList("me").filter, w, {"i"});
    assert w'.issues == w.issues["i" := Merge(w.issues["i"], Assigned(Some("you")))];
    hide Agrees, Reconcile;
    UnflaggedDeliveryExactly(TodoList([], 1), w, w', MyList("me"), "i", Assigned(Some("you")));
  }

  // ----- a refetch that outruns the event

  const TWO_MINE := World(map["i" := Item("i", Some("me"), None), "j" := Item("j", Some("me"), None)])
  const ONE_MINE := World(map["i" := Item("i", None, None), "j" := Item("j", Some("me"), None)])
  const MINE_BEFORE := Some(Item("i", Some("me"), None))

  lemma LateWrite()
    ensures Write(TWO_MINE, ONE_MINE, MyList("me"), "i", Assigned(None), Dims(true, false, false), MINE_BEFORE)
  {
    assert ONE_MINE.issues == TWO_MINE.issues["i" := Merge(TWO_MINE.issues["i"], Assigned(None))];
  }

  lemma LateCounts()
    ensures CountedTwice(TodoList([], 1), MyList("me"), "i", Assigned(None), Dims(true, false, false), MINE_BEFORE)
    ensures !Reconcile(TodoList([], 1), MyList("me"), "i", Assigned(None), Dims(true, false, false), MINE_BEFORE).stale
  {
    hide IssueMatchesListFilter;
    DecidedVerdict(Item("i", Some("me"), None), MyList("me"), NOBODY);
    DecidedVerdict(Item("i", None, None), MyList("me"), NOBODY);
    assert Overlay(MINE_BEFORE, Assigned(None)) == AsPatch(Item("i", None, None));
  }

  /** Of two issues of mine beyond the window one is unassigned; the list is refetched before the event arrives, and
      the event takes the unit again. */
  lemma LateExample()
    ensures var o := Reconcile(TodoList([], 1), MyList("me"), "i", Assigned(None), Dims(true, false, false),
      MINE_BEFORE);
      && Write(TWO_MINE, ONE_MINE, MyList("me"), "i", Assigned(None), Dims(true, false, false), MINE_BEFORE)
      && Agrees(TodoList([], 1), MyList("me").filter, ONE_MINE) && !o.stale
      && !Agrees(o.next, MyList("me").filter, ONE_MINE)
  {
    LateWrite();
    LateCounts();
    TodoListAgrees([], MyList("me").filter, ONE_MINE, {"j"});
    hide Agrees, Reconcile, CountedTwice, Write;
    var changed := Dims(true, false, false);
    LateDeliveryExactly(TodoList([], 1), TWO_MINE, ONE_MINE, MyList("me"), "i", Assigned(None), changed, MINE_BEFORE);
  }

  // ----- a server that stores something else

  const JOIN := Request(None, Some(Some("e")), None, None)
  const ALONE := Row(WorkItem, None, None, None)

  function Text(text: string): Patch { NO_PATCH.(content := Some(text)) }

  lemma EpicBringsProject()
    ensures ServerFlags.Updated(ALONE, JOIN, Hierarchy(map["e" := "p"], map[])) ==
      Some(Row(WorkItem, Some("p"), Some("e"), None))
  {
  }

  const SENT := Item("i", None, None).(content := "under e")

  /** The list of the project is right before the response, and stays as it is. */
  lemma JoinIsUnheard()
    ensures var stored := SENT.(projectId := Some("p"));
      var ch := SuccessChange("i", Text("under e"), stored);
      var o := Reconcile(TodoList([], 0), ProjectList("p"), "i", ch.patch, ch.changed, ch.base);
      && Agrees(TodoList([], 0), ProjectList("p").filter, World(map["i" := SENT])) && !o.stale
      && !Agrees(o.next, ProjectList("p").filter, World(map["i" := stored]))
  {
    var stored := SENT.(projectId := Some("p"));
    var v, v' := World(map["i" := SENT]), World(map["i" := stored]);
    TodoListAgrees([], ProjectList("p").filter, v, {});
    assert v'.issues == v.issues["i" := stored];
    hide Agrees, Reconcile, SuccessChange;
    CoercedWriteExactly(TodoList([], 0), v, v', ProjectList("p"), "i", Text("under e"), stored);
  }

  /** A work item without a project is put under an epic, which is one of the fields that `content` stands for. The
      server also stores the epic's project, and the loaded list of that project does not hear of it. */
  lemma CoercedExample()
    ensures var row := ServerFlags.Updated(ALONE, JOIN, Hierarchy(map["e" := "p"], map[]));
      var sent := Merge(Item("i", None, None), Text("under e"));
      var ch := SuccessChange("i", Text("under e"), sent.(projectId := Some("p")));
      var o := Reconcile(TodoList([], 0), ProjectList("p"), "i", ch.patch, ch.changed, ch.base);
      && row.Some? && row.value.projectId == Some("p")
      && Agrees(TodoList([], 0), ProjectList("p").filter, World(map["i" := sent])) && !o.stale
      && !Agrees(o.next, ProjectList("p").filter, World(map["i" := sent.(projectId := Some("p"))]))
  {
    assert Merge(Item("i", None, None), Text("under e")) == SENT;
    hide Agrees, Reconcile, SuccessChange, ServerFlags.Updated, Merge;
    EpicBringsProject();
    JoinIsUnheard();
  }

  // ----- moves the server's flags hide

  /** Unassigning my issue leaves its card on my list. */
  lemma UnassignedExample()
    ensures var mine, free := Item("i", Some("me"), None), Item("i", None, None);
      var flag := ServerAssigneeFlag(AssigneeRequest(Some(None), Some(None)), mine, free);
      var o := Reconcile(TodoList([mine], 1), MyList("me"), "i", Assigned(None),
                         WsDims(Some(mine), Assigned(None), Meta(Some(flag), Some(false), Some(false))), Some(mine));
      && Agrees(TodoList([mine], 1), MyList("me").filter, World(map["i" := mine]))
      && Merge(mine, Assigned(None)) == free
      && !o.stale && !Agrees(o.next, MyList("me").filter, World(map["i" := free]))
  {
    var mine, free := Item("i", Some("me"), None), Item("i", None, None);
    var w, w' := World(map["i" := mine]), World(map["i" := free]);
    TodoListAgrees([mine], MyList("me").filter, w, {"i"});
    assert GetBucket(TodoList([mine], 1), Todo).issues[0].id == "i";
    assert w'.issues == w.issues["i" := Merge(w.issues["i"], Assigned(None))];
    UnassignedCardStays(TodoList([mine], 1), w, w', "me", "i", Assigned(None), Some(mine));
  }

  const INTO_P := NO_PATCH.(projectId := Some(Some("p")))

  lemma MoveIsUnheard()
    ensures var o := Reconcile(TodoList([], 0), ProjectList("p"), "i", INTO_P, WsDims(None, INTO_P, NOT_FLAGGED), None);
      && Agrees(TodoList([], 0), ProjectList("p").filter, World(map["i" := Item("i", None, None)]))
      && !o.stale && !Agrees(o.next, ProjectList("p").filter, World(map["i" := Item("i", None, Some("p"))]))
  {
    var w, w' := World(map["i" := Item("i", None, None)]), World(map["i" := Item("i", None, Some("p"))]);
    TodoListAgrees([], ProjectList("p").filter, w, {});
    assert w'.issues == w.issues["i" := Merge(w.issues["i"], INTO_P)];
    hide Agrees, Reconcile;
    HiddenMoveExactly(TodoList([], 0), w, w', "p", "i", INTO_P, None);
  }

  /** A work item without a project is put under an epic: the server gives it the epic's project, sends the project
      flag as false, and the loaded list of that project does not hear of it. */
  lemma JoinedEpicExample()
    ensures var row := ServerFlags.Updated(ALONE, JOIN, Hierarchy(map["e" := "p"], map[]));
      var o := Reconcile(TodoList([], 0), ProjectList("p"), "i", INTO_P, WsDims(None, INTO_P, NOT_FLAGGED), None);
      && row.Some? && row.value.projectId == Some("p") && !SingleProjectFlag(JOIN, ALONE, row.value)
      && Agrees(TodoList([], 0), ProjectList("p").filter, World(map["i" := Item("i", None, None)]))
      && !o.stale && !Agrees(o.next, ProjectList("p").filter, World(map["i" := Item("i", None, Some("p"))]))
  {
    hide Agrees, Reconcile, WsDims;
    EpicBringsProject();
    MoveIsUnheard();
  }

  // ----- a response that comes too late

  const ROW := Issue("i", WorkItem, Todo, 1.0, None, None, "u", None, None, "old")

  function Holding(row: Issue): Server { Server(map["i" := row], NOBODY, UNTIMED) }

  function Opened(row: Issue): State { State([], map[], map["i" := row], None, map[], {}) }

  const MINE := Merge(ROW, Text("mine"))
  const THEIRS := Merge(ROW, Text("theirs"))
  const EDITED := Apply(Opened(ROW), ChangeFor(Opened(ROW), "i", Text("mine")))
  const OVERTAKEN := Remote(Updated("i", Text("theirs"), NOT_FLAGGED))

  lemma OvertakenIsEvent()
    ensures LegOk(EDITED, "i", Holding(MINE), MINE, OVERTAKEN, Holding(THEIRS))
  {
    assert Holding(THEIRS).issues == Holding(MINE).issues["i" := Merge(MINE, Text("theirs"))];
    assert "i" in EDITED.details;
  }

  /** An open issue is edited; before the response arrives another user's later edit is delivered. The response then
      puts the own, older text back, and nothing is flagged. */
  lemma LateResponseRun()
    ensures var t1 := TakeLeg(EDITED, {}, "i", Text("mine"), MINE, OVERTAKEN);
      var t2 := TakeLeg(t1, {}, "i", Text("mine"), MINE, Success);
      && InStep(Opened(ROW), Holding(ROW)) && OwnWrite(Holding(ROW), Holding(MINE), "i", Text("mine"))
      && LegOk(EDITED, "i", Holding(MINE), MINE, OVERTAKEN, Holding(THEIRS))
      && InStep(t1, Holding(THEIRS)) && !InStep(t2, Holding(THEIRS)) && t2.stale == {}
  {
    assert Holding(MINE).issues == Holding(ROW).issues["i" := MINE];
    OvertakenIsEvent();
    hide LegOk;
    var t1 := TakeLeg(EDITED, {}, "i", Text("mine"), MINE, OVERTAKEN);
    var t2 := TakeLeg(t1, {}, "i", Text("mine"), MINE, Success);
    assert t1.details["i"] == THEIRS && t2.details["i"] == MINE;
  }
}
