/**
 * The client of scripts/notion-client.js: lookups by `Branch Name` and `Ticket ID`,
 * the status query over a `select`-typed `Status`, and the status updates.
 */
module NotionClient {
  import opened Wrappers
  import opened Seqs
  import opened Store

  /** `{ or: statuses.map(status => ({ property: "Status", select: { equals: status } })) }` */
  function StatusFilter(statuses: seq<string>): Filter
  {
    Or(seq(|statuses|, i requires 0 <= i < |statuses| => Where(SelectEquals(statuses[i]))))
  }

  /**
   * One `select equals` clause per status, in the order given; the filter matches exactly
   * the pages whose status is listed, and the service accepts it only when `Status` is a select.
   */
  lemma StatusFilterMeaning(statuses: seq<string>, p: Page, schema: map<string, PropType>)
    ensures StatusFilter(statuses).Or? && |StatusFilter(statuses).any| == |statuses|
    ensures forall i :: 0 <= i < |statuses| ==> StatusFilter(statuses).any[i] == Where(SelectEquals(statuses[i]))
    ensures Matches(p, StatusFilter(statuses)) <==> p.status in statuses
    ensures WellTyped(StatusFilter(statuses), schema) <==>
      statuses == [] || (StatusProperty in schema && schema[StatusProperty] == SelectType)
  {
    var f := StatusFilter(statuses);
    if p.status in statuses {
      var i :| 0 <= i < |statuses| && statuses[i] == p.status;
      assert Matches(p, f.any[i]);
    }
    if statuses != [] {
      assert WellTyped(f, schema) ==> WellTyped(f.any[0], schema);
    }
  }

  /** The result of `findPagesByStatus` for the database state at call number `call`; `[]` when the query throws */
  function StatusQueryResult(call: nat, faults: set<nat>, schema: map<string, PropType>,
                             order: seq<PageId>, pages: map<PageId, Page>, statuses: seq<string>): seq<PageId>
  {
    if call in faults || !WellTyped(StatusFilter(statuses), schema) then [] else Select(order, pages, StatusFilter(statuses))
  }

  /** On a database whose order has no repeats, the status query lists each page at most once */
  lemma StatusQueryNoDuplicates(call: nat, faults: set<nat>, schema: map<string, PropType>,
                                order: seq<PageId>, pages: map<PageId, Page>, statuses: seq<string>)
    requires NoDuplicates(order)
    ensures NoDuplicates(StatusQueryResult(call, faults, schema, order, pages, statuses))
  {
    SelectNoDuplicates(order, pages, StatusFilter(statuses));
  }

  /** `findPageByBranchName`: the first page whose `Branch Name` equals `name`; `None` when there is none or the query throws */
  method FindPageByBranchName(db: Database, name: string) returns (page: Option<PageId>)
    modifies db`log
    ensures db.log == old(db.log) + [QueryDatabase(Where(BranchNameEquals(name)))]
    ensures page == if |old(db.log)| in db.faults || !WellTyped(Where(BranchNameEquals(name)), db.schema) then None
                    else First(Select(db.order, db.pages, Where(BranchNameEquals(name))))
  {
    var response := db.DatabasesQuery(Where(BranchNameEquals(name)));
    page := if response.None? then None else First(response.value);
  }

  /** `findPageByTicketId`: the first page whose `Ticket ID` equals `ticketId`; `None` when there is none or the query throws */
  method FindPageByTicketId(db: Database, ticketId: string) returns (page: Option<PageId>)
    modifies db`log
    ensures db.log == old(db.log) + [QueryDatabase(Where(TicketIdEquals(ticketId)))]
    ensures page == if |old(db.log)| in db.faults || !WellTyped(Where(TicketIdEquals(ticketId)), db.schema) then None
                    else First(Select(db.order, db.pages, Where(TicketIdEquals(ticketId))))
  {
    var response := db.DatabasesQuery(Where(TicketIdEquals(ticketId)));
    page := if response.None? then None else First(response.value);
  }

  /** `findPagesByStatus`: one query with the OR filter; `[]` when it throws */
  method FindPagesByStatus(db: Database, statuses: seq<string>) returns (ids: seq<PageId>)
    modifies db`log
    ensures db.log == old(db.log) + [QueryDatabase(StatusFilter(statuses))]
    ensures ids == StatusQueryResult(|old(db.log)|, db.faults, db.schema, db.order, db.pages, statuses)
  {
    var response := db.DatabasesQuery(StatusFilter(statuses));
    ids := if response.None? then [] else response.value;
  }

  /** `updatePageStatus`: sets the `Status` select of one page; `false` stands for the rethrown error */
  method UpdatePageStatus(db: Database, id: PageId, status: string) returns (ok: bool)
    requires db.Valid()
    modifies db
    ensures db.Valid()
    ensures db.log == old(db.log) + [UpdatePage(id, SelectType, status)]
    ensures ok == Accepts(db.faults, db.schema, old(db.pages), |old(db.log)|, id, SelectType)
    ensures db.pages == if ok then SetStatus(old(db.pages), id, status) else old(db.pages)
  {
    ok := db.PagesUpdate(id, SelectType, status);
  }

  /**
   * `updateMultiplePagesStatus`: one update per page, in list order; the first update
   * that throws ends the loop, so the pages before it are updated and it and the ones
   * after it are not.
   */
  method UpdateMultiplePagesStatus(db: Database, ids: seq<PageId>, status: string) returns (outcome: BulkOutcome)
    requires db.Valid()
    modifies db
    ensures db.Valid()
    ensures outcome.FailedAt? ==> outcome.index < |ids|
    ensures db.pages == SetStatusAll(old(db.pages), ids[..Completed(outcome, |ids|)], status)
    ensures db.log == old(db.log) + UpdateRequests(ids[..Attempted(outcome, |ids|)], SelectType, status)
    ensures Completed(outcome, |ids|) <= |ids|
    ensures AllAccepted(db.faults, db.schema, old(db.pages), |old(db.log)|, ids, Completed(outcome, |ids|), SelectType)
    ensures outcome.FailedAt? ==>
      !Accepts(db.faults, db.schema, old(db.pages), |old(db.log)| + outcome.index, ids[outcome.index], SelectType)
  {
    ghost var before, call := db.pages, |db.log|;
    var i := 0;
    while i < |ids|
      invariant 0 <= i <= |ids|
      invariant db.Valid()
      invariant db.pages == SetStatusAll(before, ids[..i], status)
      invariant db.log == old(db.log) + UpdateRequests(ids[..i], SelectType, status)
      invariant AllAccepted(db.faults, db.schema, before, call, ids, i, SelectType)
    {
      AcceptsAfterBulk(db.faults, db.schema, before, ids[..i], status, call + i, ids[i], SelectType);
      BulkStep(before, ids, i, SelectType, status);
      var ok := UpdatePageStatus(db, ids[i], status);
      if !ok {
        assert db.pages == SetStatusAll(before, ids[..i], status);
        assert db.log == old(db.log) + UpdateRequests(ids[..i + 1], SelectType, status);
        outcome := FailedAt(i);
        return;
      }
      AllAcceptedStep(db.faults, db.schema, before, call, ids, i, SelectType);
      i := i + 1;
    }
    assert ids[..|ids|] == ids;
    outcome := AllUpdated;
  }
}
