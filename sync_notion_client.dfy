/**
 * The client of scripts/notion-sync/notion-client.js: the guarded `Task ID` lookup, the
 * status query over a `status`-typed `Status`, the assignee-narrowed status query with
 * its fallbacks, and the status updates.
 */
module SyncNotionClient {
  import opened Wrappers
  import opened Seqs
  import opened Text
  import opened Store

  /** `{ or: statuses.map(status => ({ property: "Status", status: { equals: status } })) }` */
  function StatusFilter(statuses: seq<string>): Filter
  {
    Or(seq(|statuses|, i requires 0 <= i < |statuses| => Where(StatusEquals(statuses[i]))))
  }

  /**
   * One `status equals` clause per status, in the order given; the filter matches exactly
   * the pages whose status is listed, and the service accepts it only when `Status` is a status property.
   */
  lemma StatusFilterMeaning(statuses: seq<string>, p: Page, schema: map<string, PropType>)
    ensures StatusFilter(statuses).Or? && |StatusFilter(statuses).any| == |statuses|
    ensures forall i :: 0 <= i < |statuses| ==> StatusFilter(statuses).any[i] == Where(StatusEquals(statuses[i]))
    ensures Matches(p, StatusFilter(statuses)) <==> p.status in statuses
    ensures WellTyped(StatusFilter(statuses), schema) <==>
      statuses == [] || (StatusProperty in schema && schema[StatusProperty] == StatusType)
  {
    var f := StatusFilter(statuses);
    if p.status in statuses {
      var i :| 0 <= i < |statuses| && statuses[i] == p.status;
      assert Matches(p, f.any[i]);
    }
    if statuses != [] {
      assert WellTyped(f, schema) ==> WellTyped(f.any[0], schema);
    }
  }

  /** The result of `findPagesByStatus` for the database state at call number `call`; `[]` when the query throws */
  function StatusQueryResult(call: nat, faults: set<nat>, schema: map<string, PropType>,
                             order: seq<PageId>, pages: map<PageId, Page>, statuses: seq<string>): seq<PageId>
  {
    if call in faults || !WellTyped(StatusFilter(statuses), schema) then [] else Select(order, pages, StatusFilter(statuses))
  }

  /** On a database whose order has no repeats, the status query lists each page at most once */
  lemma StatusQueryNoDuplicates(call: nat, faults: set<nat>, schema: map<string, PropType>,
                                order: seq<PageId>, pages: map<PageId, Page>, statuses: seq<string>)
    requires NoDuplicates(order)
    ensures NoDuplicates(StatusQueryResult(call, faults, schema, order, pages, statuses))
  {
    SelectNoDuplicates(order, pages, StatusFilter(statuses));
  }

  /** `{ property: 'Task ID', unique_id: { equals: n } }` */
  function TaskIdFilter(n: nat): Filter
  {
    Where(UniqueIdEquals(n))
  }

  /** The schema guard: a `Task ID` property exists and is of type `unique_id` */
  predicate TaskIdPropertyOk(schema: map<string, PropType>)
  {
    TaskIdProperty in schema && schema[TaskIdProperty] == UniqueIdType
  }

  /** `typeof taskId === 'string' ? parseInt(taskId) : taskId`; `None` stands for `NaN` */
  function NumericTaskId(taskId: TaskKey): Option<nat>
  {
    match taskId
    case Key(s) => ParseInt(s)
    case Number(n) => Some(n)
  }

  predicate HasTaskId(pages: map<PageId, Page>, id: PageId, n: nat)
  {
    id in pages && pages[id].taskId == n
  }

  /**
   * What `findPageByTaskId` answers when its first call has number `call`: `None` when
   * the schema cannot be read, has no `unique_id` `Task ID`, the id is `NaN`, or the
   * query throws; otherwise the first result of the `Task ID` query.
   */
  function TaskLookupResult(call: nat, faults: set<nat>, schema: map<string, PropType>,
                            order: seq<PageId>, pages: map<PageId, Page>, taskId: TaskKey): Option<PageId>
  {
    if call in faults || !TaskIdPropertyOk(schema) then None
    else match NumericTaskId(taskId)
      case None => None
      case Some(n) => if call + 1 in faults then None else First(Select(order, pages, TaskIdFilter(n)))
  }

  /**
   * The lookup's guards and answer: no page when a guard fails, the id is `NaN` or
   * either call throws; a page found has that `Task ID` and is the first such page in
   * the database's order; and when neither call throws and some page has that
   * `Task ID`, one is found.
   */
  lemma TaskLookupMeaning(call: nat, faults: set<nat>, schema: map<string, PropType>,
                          order: seq<PageId>, pages: map<PageId, Page>, taskId: TaskKey)
    ensures var page := TaskLookupResult(call, faults, schema, order, pages, taskId);
      (!TaskIdPropertyOk(schema) || NumericTaskId(taskId).None? || call in faults || call + 1 in faults ==> page.None?) &&
      (page.Some? ==>
         NumericTaskId(taskId).Some? &&
         exists i: nat :: FirstMatchAt(order, pages, TaskIdFilter(NumericTaskId(taskId).value), i) && order[i] == page.value) &&
      ((call !in faults && call + 1 !in faults && TaskIdPropertyOk(schema) && NumericTaskId(taskId).Some? &&
        exists i :: 0 <= i < |order| && HasTaskId(pages, order[i], NumericTaskId(taskId).value)) ==>
         page.Some?)
  {
    if NumericTaskId(taskId).Some? {
      var n := NumericTaskId(taskId).value;
      FirstSelected(order, pages, TaskIdFilter(n));
      if exists i :: 0 <= i < |order| && HasTaskId(pages, order[i], n) {
        var i :| 0 <= i < |order| && HasTaskId(pages, order[i], n);
        assert Selected(pages, TaskIdFilter(n), order[i]);
      }
    }
  }

  /** The requests `findPageByTaskId` issues: the schema retrieval, then the query only when the guards pass */
  function TaskLookupRequests(call: nat, faults: set<nat>, schema: map<string, PropType>, taskId: TaskKey): seq<Request>
  {
    if call in faults || !TaskIdPropertyOk(schema) || NumericTaskId(taskId).None? then [RetrieveDatabase]
    else [RetrieveDatabase, QueryDatabase(TaskIdFilter(NumericTaskId(taskId).value))]
  }

  /** `findPageByTaskId`; every error it catches becomes `None` */
  method FindPageByTaskId(db: Database, taskId: TaskKey) returns (page: Option<PageId>)
    modifies db`log
    ensures db.log == old(db.log) + TaskLookupRequests(|old(db.log)|, db.faults, db.schema, taskId)
    ensures page == TaskLookupResult(|old(db.log)|, db.faults, db.schema, db.order, db.pages, taskId)
  {
    var database := db.DatabasesRetrieve();
    if database.None? {
      return None;
    }
    if TaskIdProperty !in database.value {
      return None;
    }
    if database.value[TaskIdProperty] != UniqueIdType {
      return None;
    }
    var numericId := NumericTaskId(taskId);
    if numericId.None? {
      return None;
    }
    var response := db.DatabasesQuery(TaskIdFilter(numericId.value));
    page := if response.None? then None else First(response.value);
  }

  /** `findPagesByStatus`: one query with the OR filter; `[]` when it throws */
  method FindPagesByStatus(db: Database, statuses: seq<string>) returns (ids: seq<PageId>)
    modifies db`log
    ensures db.log == old(db.log) + [QueryDatabase(StatusFilter(statuses))]
    ensures ids == StatusQueryResult(|old(db.log)|, db.faults, db.schema, db.order, db.pages, statuses)
  {
    var response := db.DatabasesQuery(StatusFilter(statuses));
    ids := if response.None? then [] else response.value;
  }

  /** `u.type === 'person' && u.person?.email?.toLowerCase() === email.toLowerCase()` */
  predicate IsPersonWithEmail(u: User, email: string)
  {
    u.kind == "person" && u.email.Some? && Lower(u.email.value) == Lower(email)
  }

  /** `users.results.find(...)`: the first directory entry that is a person with this email, in any case */
  function FindUser(users: seq<User>, email: string): (u: Option<User>)
    ensures u.Some? ==> (exists i :: 0 <= i < |users| && users[i] == u.value && IsPersonWithEmail(users[i], email) &&
                          forall j :: 0 <= j < i ==> !IsPersonWithEmail(users[j], email))
    ensures u.None? <==> forall i :: 0 <= i < |users| ==> !IsPersonWithEmail(users[i], email)
  {
    if users == [] then None
    else if IsPersonWithEmail(users[0], email) then Some(users[0])
    else
      var u := FindUser(users[1..], email);
      assert forall i :: 0 < i < |users| ==> users[i] == users[1..][i - 1];
      if u.Some? then
        var i :| 0 <= i < |users[1..]| && users[1..][i] == u.value && IsPersonWithEmail(users[1..][i], email) &&
          forall j :: 0 <= j < i ==> !IsPersonWithEmail(users[1..][j], email);
        assert users[i + 1] == u.value;
        u
      else u
  }

  /** `{ and: [{ or: status clauses }, { property: "Assignee", people: { contains: userId } }] }` */
  function AssigneeFilter(statuses: seq<string>, userId: string): Filter
  {
    And([StatusFilter(statuses), Where(AssigneeContains(userId))])
  }

  /** The narrowed filter matches a page exactly when its status is listed and the user is among its assignees */
  lemma AssigneeFilterMeaning(statuses: seq<string>, userId: string, p: Page)
    ensures Matches(p, AssigneeFilter(statuses, userId)) <==>
      p.status in statuses && exists i :: 0 <= i < |p.assignees| && p.assignees[i].id == userId
  {
    var f := AssigneeFilter(statuses, userId);
    StatusFilterMeaning(statuses, p, map[]);
    assert Matches(p, f) <==> Matches(p, f.all[0]) && Matches(p, f.all[1]);
  }

  /** The narrowed query's results are a subsequence of the status-only results */
  lemma AssigneeNarrowsStatusQuery(order: seq<PageId>, pages: map<PageId, Page>, statuses: seq<string>, userId: string)
    ensures IsSubsequence(Select(order, pages, AssigneeFilter(statuses, userId)), Select(order, pages, StatusFilter(statuses)))
  {
    forall p | Matches(p, AssigneeFilter(statuses, userId))
      ensures Matches(p, StatusFilter(statuses))
    {
      AssigneeFilterMeaning(statuses, userId, p);
      StatusFilterMeaning(statuses, p, map[]);
    }
    SelectNarrowing(order, pages, AssigneeFilter(statuses, userId), StatusFilter(statuses));
  }

  /**
   * `findPagesByStatusAndAssignee`: falls back to `findPagesByStatus` when the email is
   * missing or empty, when `users.list` throws, when no person has that email, and when
   * the narrowed query throws; otherwise the narrowed query's results.
   */
  method FindPagesByStatusAndAssignee(db: Database, statuses: seq<string>, email: Option<string>)
    returns (ids: seq<PageId>)
    modifies db`log
    ensures IsSubsequence(ids, Select(db.order, db.pages, StatusFilter(statuses)))
    ensures var call := |old(db.log)|;
      if email.None? || email.value == "" then
        db.log == old(db.log) + [QueryDatabase(StatusFilter(statuses))] &&
        ids == StatusQueryResult(call, db.faults, db.schema, db.order, db.pages, statuses)
      else if call in db.faults || FindUser(db.users, email.value).None? then
        db.log == old(db.log) + [ListUsers, QueryDatabase(StatusFilter(statuses))] &&
        ids == StatusQueryResult(call + 1, db.faults, db.schema, db.order, db.pages, statuses)
      else
        var narrowed := AssigneeFilter(statuses, FindUser(db.users, email.value).value.id);
        if call + 1 in db.faults || !WellTyped(narrowed, db.schema) then
          db.log == old(db.log) + [ListUsers, QueryDatabase(narrowed), QueryDatabase(StatusFilter(statuses))] &&
          ids == StatusQueryResult(call + 2, db.faults, db.schema, db.order, db.pages, statuses)
        else
          db.log == old(db.log) + [ListUsers, QueryDatabase(narrowed)] &&
          ids == Select(db.order, db.pages, narrowed)
  {
    SubsequenceReflexive(Select(db.order, db.pages, StatusFilter(statuses)));
    if email.None? || email.value == "" {
      ids := FindPagesByStatus(db, statuses);
      return;
    }
    var users := db.UsersList();
    if users.None? {
      ids := FindPagesByStatus(db, statuses);
      return;
    }
    var matchedUser := FindUser(users.value, email.value);
    if matchedUser.None? {
      ids := FindPagesByStatus(db, statuses);
      return;
    }
    var response := db.DatabasesQuery(AssigneeFilter(statuses, matchedUser.value.id));
    if response.None? {
      ids := FindPagesByStatus(db, statuses);
      return;
    }
    AssigneeNarrowsStatusQuery(db.order, db.pages, statuses, matchedUser.value.id);
    ids := response.value;
  }

  /** `updatePageStatus`: sets the `Status` status of one page; `false` stands for the rethrown error */
  method UpdatePageStatus(db: Database, id: PageId, status: string) returns (ok: bool)
    requires db.Valid()
    modifies db
    ensures db.Valid()
    ensures db.log == old(db.log) + [UpdatePage(id, StatusType, status)]
    ensures ok == Accepts(db.faults, db.schema, old(db.pages), |old(db.log)|, id, StatusType)
    ensures db.pages == if ok then SetStatus(old(db.pages), id, status) else old(db.pages)
  {
    ok := db.PagesUpdate(id, StatusType, status);
  }

  /**
   * `updateMultiplePagesStatus`: one update per page, in list order; the first update
   * that throws ends the loop, so the pages before it are updated and it and the ones
   * after it are not.
   */
  method UpdateMultiplePagesStatus(db: Database, ids: seq<PageId>, status: string) returns (outcome: BulkOutcome)
    requires db.Valid()
    modifies db
    ensures db.Valid()
    ensures outcome.FailedAt? ==> outcome.index < |ids|
    ensures db.pages == SetStatusAll(old(db.pages), ids[..Completed(outcome, |ids|)], status)
    ensures db.log == old(db.log) + UpdateRequests(ids[..Attempted(outcome, |ids|)], StatusType, status)
    ensures Completed(outcome, |ids|) <= |ids|
    ensures AllAccepted(db.faults, db.schema, old(db.pages), |old(db.log)|, ids, Completed(outcome, |ids|), StatusType)
    ensures outcome.FailedAt? ==>
      !Accepts(db.faults, db.schema, old(db.pages), |old(db.log)| + outcome.index, ids[outcome.index], StatusType)
  {
    ghost var before, call := db.pages, |db.log|;
    var i := 0;
    while i < |ids|
      invariant 0 <= i <= |ids|
      invariant db.Valid()
      invariant db.pages == SetStatusAll(before, ids[..i], status)
      invariant db.log == old(db.log) + UpdateRequests(ids[..i], StatusType, status)
      invariant AllAccepted(db.faults, db.schema, before, call, ids, i, StatusType)
    {
      AcceptsAfterBulk(db.faults, db.schema, before, ids[..i], status, call + i, ids[i], StatusType);
      BulkStep(before, ids, i, StatusType, status);
      var ok := UpdatePageStatus(db, ids[i], status);
      if !ok {
        assert db.pages == SetStatusAll(before, ids[..i], status);
        assert db.log == old(db.log) + UpdateRequests(ids[..i + 1], StatusType, status);
        outcome := FailedAt(i);
        return;
      }
      AllAcceptedStep(db.faults, db.schema, before, call, ids, i, StatusType);
      i := i + 1;
    }
    assert ids[..|ids|] == ids;
    outcome := AllUpdated;
  }
}
