/**
 * The Notion database both clients talk to, reduced to what the scripts read and write:
 * pages keyed by id with the properties the filters and updates name, the database
 * schema, the user directory, and the filter semantics a query is assumed to have.
 * The remote service is a class whose state changes in place: page statuses change on
 * update, and every request issued is appended to a log. Which calls throw is given
 * in advance as a set of call numbers (`faults`), standing for network and API errors.
 */
module Store {
  import opened Wrappers
  import opened Seqs

  type PageId = string

  /** A person as a page's `Assignee` people property lists it (`name` is `''` when absent) */
  datatype Person = Person(id: string, name: string)

  /** The properties of one page that the core reads or writes */
  datatype Page = Page(status: string, taskId: nat, assignees: seq<Person>, branchName: string, ticketId: string)

  /** Property types of a database schema, as `database.properties[name].type` reports them */
  datatype PropType = UniqueIdType | StatusType | SelectType | RichTextType | PeopleType | OtherType(name: string)

  /** An entry of `users.list`: its id, its `type`, and `person.email` when there is one */
  datatype User = User(id: string, kind: string, email: Option<string>)

  /** What `findPageByTaskId` is given: a string key or a number */
  datatype TaskKey = Key(text: string) | Number(n: nat)

  const StatusProperty := "Status"
  const TaskIdProperty := "Task ID"
  const BranchNameProperty := "Branch Name"
  const TicketIdProperty := "Ticket ID"
  const AssigneeProperty := "Assignee"

  /** One property clause of a query filter */
  datatype Condition =
    | StatusEquals(status: string)       // { property: "Status", status: { equals } }
    | SelectEquals(option: string)       // { property: "Status", select: { equals } }
    | UniqueIdEquals(number: nat)        // { property: "Task ID", unique_id: { equals } }
    | BranchNameEquals(text: string)     // { property: "Branch Name", rich_text: { equals } }
    | TicketIdEquals(text: string)       // { property: "Ticket ID", rich_text: { equals } }
    | AssigneeContains(userId: string)   // { property: "Assignee", people: { contains } }

  /** A query filter: a clause, or an `or` / `and` of filters */
  datatype Filter = Where(condition: Condition) | Or(any: seq<Filter>) | And(all: seq<Filter>)

  function PropertyOf(c: Condition): string
  {
    match c
    case StatusEquals(_) => StatusProperty
    case SelectEquals(_) => StatusProperty
    case UniqueIdEquals(_) => TaskIdProperty
    case BranchNameEquals(_) => BranchNameProperty
    case TicketIdEquals(_) => TicketIdProperty
    case AssigneeContains(_) => AssigneeProperty
  }

  /** The property type a clause's filter operator is defined for */
  function TypeOf(c: Condition): PropType
  {
    match c
    case StatusEquals(_) => StatusType
    case SelectEquals(_) => SelectType
    case UniqueIdEquals(_) => UniqueIdType
    case BranchNameEquals(_) => RichTextType
    case TicketIdEquals(_) => RichTextType
    case AssigneeContains(_) => PeopleType
  }

  predicate Holds(p: Page, c: Condition)
  {
    match c
    case StatusEquals(s) => p.status == s
    case SelectEquals(s) => p.status == s
    case UniqueIdEquals(n) => p.taskId == n
    case BranchNameEquals(t) => p.branchName == t
    case TicketIdEquals(t) => p.ticketId == t
    case AssigneeContains(u) => exists i :: 0 <= i < |p.assignees| && p.assignees[i].id == u
  }

  /** The assumed query semantics; an empty `or` matches nothing and an empty `and` everything */
  predicate Matches(p: Page, f: Filter)
  {
    match f
    case Where(c) => Holds(p, c)
    case Or(fs) => exists i :: 0 <= i < |fs| && Matches(p, fs[i])
    case And(fs) => forall i :: 0 <= i < |fs| ==> Matches(p, fs[i])
  }

  /** Every clause names a property the schema has, with the type its operator needs */
  predicate WellTyped(f: Filter, schema: map<string, PropType>)
  {
    match f
    case Where(c) => PropertyOf(c) in schema && schema[PropertyOf(c)] == TypeOf(c)
    case Or(fs) => forall i :: 0 <= i < |fs| ==> WellTyped(fs[i], schema)
    case And(fs) => forall i :: 0 <= i < |fs| ==> WellTyped(fs[i], schema)
  }

  predicate Selected(pages: map<PageId, Page>, f: Filter, id: PageId)
  {
    id in pages && Matches(pages[id], f)
  }

  /** The results of a successful query: the matching pages, in the database's order */
  function Select(order: seq<PageId>, pages: map<PageId, Page>, f: Filter): seq<PageId>
  {
    if order == [] then []
    else (if Selected(pages, f, order[0]) then [order[0]] else []) + Select(order[1..], pages, f)
  }

  /** What a query returns matches its filter */
  lemma {:induction false} SelectSound(order: seq<PageId>, pages: map<PageId, Page>, f: Filter)
    ensures IsSubsequence(Select(order, pages, f), order)
    ensures forall i :: 0 <= i < |Select(order, pages, f)| ==> Selected(pages, f, Select(order, pages, f)[i])
  {
    if order != [] {
      SelectSound(order[1..], pages, f);
      var rest := Select(order[1..], pages, f);
      if Selected(pages, f, order[0]) {
        assert Select(order, pages, f) == [order[0]] + rest;
        assert ([order[0]] + rest)[1..] == rest;
      } else {
        assert Select(order, pages, f) == rest;
        if rest != [] {
          assert IsSubsequence(rest, order[1..]);
        }
      }
    }
  }

  /** A database order without repeats lists each selected page once */
  lemma SelectNoDuplicates(order: seq<PageId>, pages: map<PageId, Page>, f: Filter)
    requires NoDuplicates(order)
    ensures NoDuplicates(Select(order, pages, f))
  {
    SelectSound(order, pages, f);
    SubsequenceNoDuplicates(Select(order, pages, f), order);
  }

  /** Every matching page the database lists is in the results */
  lemma {:induction false} SelectComplete(order: seq<PageId>, pages: map<PageId, Page>, f: Filter, id: PageId)
    requires id in order && Selected(pages, f, id)
    ensures id in Select(order, pages, f)
  {
    if order[0] != id {
      SelectComplete(order[1..], pages, f, id);
    }
  }

  /** Position `i` holds the first page of `order` that the filter selects */
  predicate FirstMatchAt(order: seq<PageId>, pages: map<PageId, Page>, f: Filter, i: nat)
  {
    i < |order| && Selected(pages, f, order[i]) && forall j :: 0 <= j < i ==> !Selected(pages, f, order[j])
  }

  /** Skipping an unselected first page moves the first match one place on */
  lemma FirstMatchAfterSkip(order: seq<PageId>, pages: map<PageId, Page>, f: Filter, i: nat)
    requires order != [] && !Selected(pages, f, order[0])
    requires FirstMatchAt(order[1..], pages, f, i)
    ensures FirstMatchAt(order, pages, f, i + 1) && order[i + 1] == order[1..][i]
  {
    forall j | 0 < j < i + 1
      ensures !Selected(pages, f, order[j])
    {
      assert order[j] == order[1..][j - 1];
    }
  }

  /** An unselected first page followed by no selected page means no page is selected */
  lemma NoneSelectedAfterSkip(order: seq<PageId>, pages: map<PageId, Page>, f: Filter)
    requires order != [] && !Selected(pages, f, order[0])
    requires forall i :: 0 <= i < |order[1..]| ==> !Selected(pages, f, order[1..][i])
    ensures forall i :: 0 <= i < |order| ==> !Selected(pages, f, order[i])
  {
    forall i | 0 < i < |order|
      ensures !Selected(pages, f, order[i])
    {
      assert order[i] == order[1..][i - 1];
    }
  }

  /** `results[0]` is the first matching page in the database's order, and there is none exactly when nothing matches */
  lemma {:induction false} FirstSelected(order: seq<PageId>, pages: map<PageId, Page>, f: Filter)
    ensures First(Select(order, pages, f)).Some? ==>
      exists i: nat :: FirstMatchAt(order, pages, f, i) && order[i] == First(Select(order, pages, f)).value
    ensures First(Select(order, pages, f)).None? ==> forall i :: 0 <= i < |order| ==> !Selected(pages, f, order[i])
  {
    if order != [] {
      var tail := order[1..];
      FirstSelected(tail, pages, f);
      if !Selected(pages, f, order[0]) {
        assert Select(order, pages, f) == Select(tail, pages, f);
        if First(Select(tail, pages, f)).Some? {
          var i: nat :| FirstMatchAt(tail, pages, f, i) && tail[i] == First(Select(tail, pages, f)).value;
          FirstMatchAfterSkip(order, pages, f, i);
        } else {
          NoneSelectedAfterSkip(order, pages, f);
        }
      } else {
        assert FirstMatchAt(order, pages, f, 0);
      }
    }
  }

  /** A filter that implies another selects a subsequence of what the other selects */
  lemma {:induction false} SelectNarrowing(order: seq<PageId>, pages: map<PageId, Page>, f: Filter, g: Filter)
    requires forall p :: Matches(p, f) ==> Matches(p, g)
    ensures IsSubsequence(Select(order, pages, f), Select(order, pages, g))
  {
    if order != [] {
      SelectNarrowing(order[1..], pages, f, g);
      var x := order[0];
      var sf, sg := Select(order[1..], pages, f), Select(order[1..], pages, g);
      if Selected(pages, f, x) {
        assert Select(order, pages, f) == [x] + sf && Select(order, pages, g) == [x] + sg;
        assert ([x] + sf)[1..] == sf && ([x] + sg)[1..] == sg;
      } else if Selected(pages, g, x) {
        assert Select(order, pages, f) == sf && Select(order, pages, g) == [x] + sg;
        SubsequenceOfCons(sf, sg, x);
      } else {
        assert Select(order, pages, f) == sf && Select(order, pages, g) == sg;
      }
    }
  }

  /** Set the `Status` of one page; nothing happens to an id the database does not have */
  function SetStatus(pages: map<PageId, Page>, id: PageId, status: string): map<PageId, Page>
  {
    if id in pages then pages[id := pages[id].(status := status)] else pages
  }

  /** The pages after setting the `Status` of each listed page in turn */
  function SetStatusAll(pages: map<PageId, Page>, ids: seq<PageId>, status: string): map<PageId, Page>
  {
    if ids == [] then pages else SetStatus(SetStatusAll(pages, ids[..|ids| - 1], status), ids[|ids| - 1], status)
  }

  /**
   * A bulk status change touches only the listed pages and only their `Status`:
   * no page appears or disappears, an unlisted page keeps every property, and a listed
   * page keeps all but its `Status`.
   */
  lemma {:induction false} SetStatusAllFrame(pages: map<PageId, Page>, ids: seq<PageId>, status: string, id: PageId)
    ensures id in SetStatusAll(pages, ids, status) <==> id in pages
    ensures id in pages ==>
      SetStatusAll(pages, ids, status)[id] == if id in ids then pages[id].(status := status) else pages[id]
  {
    if ids != [] {
      var init := ids[..|ids| - 1];
      SetStatusAllFrame(pages, init, status, id);
      assert id in ids <==> id in init || id == ids[|ids| - 1];
    }
  }

  /** Moving every page a filter selects to a status the filter rejects leaves nothing for the same query to find */
  lemma {:induction false} MoveEmptiesSelection(order: seq<PageId>, pages: map<PageId, Page>, f: Filter, status: string)
    requires forall id :: id in pages ==> !Matches(pages[id].(status := status), f)
    ensures Select(order, SetStatusAll(pages, Select(order, pages, f), status), f) == []
  {
    var moved := Select(order, pages, f);
    var after := SetStatusAll(pages, moved, status);
    forall i | 0 <= i < |order|
      ensures !Selected(after, f, order[i])
    {
      var id := order[i];
      SetStatusAllFrame(pages, moved, status, id);
      if id in pages && Matches(pages[id], f) {
        SelectComplete(order, pages, f, id);
      }
    }
    NothingSelected(order, after, f);
  }

  lemma {:induction false} NothingSelected(order: seq<PageId>, pages: map<PageId, Page>, f: Filter)
    requires forall i :: 0 <= i < |order| ==> !Selected(pages, f, order[i])
    ensures Select(order, pages, f) == []
  {
    if order != [] {
      assert forall i :: 0 <= i < |order[1..]| ==> order[1..][i] == order[i + 1];
      NothingSelected(order[1..], pages, f);
    }
  }

  /** A request the clients send */
  datatype Request =
    | RetrieveDatabase
    | QueryDatabase(filter: Filter)
    | ListUsers
    | UpdatePage(page: PageId, kind: PropType, status: string)

  /** The requests of a bulk update: one status update per listed page, in order */
  function UpdateRequests(ids: seq<PageId>, kind: PropType, status: string): (requests: seq<Request>)
    ensures |requests| == |ids|
  {
    if ids == [] then [] else UpdateRequests(ids[..|ids| - 1], kind, status) + [UpdatePage(ids[|ids| - 1], kind, status)]
  }

  /** An update succeeds when its call does not throw, the page exists, and `Status` has the payload's type */
  predicate Accepts(faults: set<nat>, schema: map<string, PropType>, pages: map<PageId, Page>, call: nat, id: PageId, kind: PropType)
  {
    call !in faults && id in pages && StatusProperty in schema && schema[StatusProperty] == kind
  }

  /** How a sequential bulk update ends: every page updated, or aborted by the update at `index` */
  datatype BulkOutcome = AllUpdated | FailedAt(index: nat)

  /** Updates issued before the outcome: the failing one is issued too */
  function Attempted(outcome: BulkOutcome, count: nat): nat
  {
    match outcome
    case AllUpdated => count
    case FailedAt(i) => i + 1
  }

  /** Updates that succeeded before the outcome */
  function Completed(outcome: BulkOutcome, count: nat): nat
  {
    match outcome
    case AllUpdated => count
    case FailedAt(i) => i
  }

  /** The first `n` updates of a bulk update, numbered from `call`, are all accepted */
  predicate AllAccepted(faults: set<nat>, schema: map<string, PropType>, pages: map<PageId, Page>,
                        call: nat, ids: seq<PageId>, n: nat, kind: PropType)
    requires n <= |ids|
  {
    forall j :: 0 <= j < n ==> Accepts(faults, schema, pages, call + j, ids[j], kind)
  }

  lemma AllAcceptedStep(faults: set<nat>, schema: map<string, PropType>, pages: map<PageId, Page>,
                        call: nat, ids: seq<PageId>, n: nat, kind: PropType)
    requires n < |ids|
    requires AllAccepted(faults, schema, pages, call, ids, n, kind)
    requires Accepts(faults, schema, pages, call + n, ids[n], kind)
    ensures AllAccepted(faults, schema, pages, call, ids, n + 1, kind)
  {
  }

  /** One more step of a bulk update: one more page's status set and one more request */
  lemma BulkStep(pages: map<PageId, Page>, ids: seq<PageId>, i: nat, kind: PropType, status: string)
    requires i < |ids|
    ensures SetStatusAll(pages, ids[..i + 1], status) == SetStatus(SetStatusAll(pages, ids[..i], status), ids[i], status)
    ensures UpdateRequests(ids[..i + 1], kind, status) == UpdateRequests(ids[..i], kind, status) + [UpdatePage(ids[i], kind, status)]
  {
    assert ids[..i + 1][..i] == ids[..i];
  }

  /** Whether an update is accepted does not depend on statuses set before it */
  lemma AcceptsAfterBulk(faults: set<nat>, schema: map<string, PropType>, pages: map<PageId, Page>,
                         ids: seq<PageId>, status: string, call: nat, id: PageId, kind: PropType)
    ensures Accepts(faults, schema, SetStatusAll(pages, ids, status), call, id, kind) == Accepts(faults, schema, pages, call, id, kind)
  {
    SetStatusAllFrame(pages, ids, status, id);
  }

  class Database {
    var pages: map<PageId, Page>
    /** The order in which queries list pages */
    const order: seq<PageId>
    const schema: map<string, PropType>
    const users: seq<User>
    /** The numbers of the calls that throw, counting every request from 0 */
    const faults: set<nat>
    /** Every request issued so far */
    var log: seq<Request>

    ghost predicate Valid()
      reads this
    {
      NoDuplicates(order) && forall id :: id in pages <==> id in order
    }

    constructor (pages: map<PageId, Page>, order: seq<PageId>, schema: map<string, PropType>,
                 users: seq<User>, faults: set<nat>)
      requires NoDuplicates(order) && forall id :: id in pages <==> id in order
      ensures Valid()
      ensures this.pages == pages && this.order == order && this.schema == schema
      ensures this.users == users && this.faults == faults && log == []
    {
      this.pages := pages;
      this.order := order;
      this.schema := schema;
      this.users := users;
      this.faults := faults;
      log := [];
    }

    /** `databases.retrieve`: the schema, or `None` when the call throws */
    method DatabasesRetrieve() returns (r: Option<map<string, PropType>>)
      modifies this`log
      ensures log == old(log) + [RetrieveDatabase]
      ensures r == if |old(log)| in faults then None else Some(schema)
    {
      r := if |log| in faults then None else Some(schema);
      log := log + [RetrieveDatabase];
    }

    /** `databases.query`: throws when the call fails or the filter does not fit the schema */
    method DatabasesQuery(f: Filter) returns (r: Option<seq<PageId>>)
      modifies this`log
      ensures log == old(log) + [QueryDatabase(f)]
      ensures r == if |old(log)| in faults || !WellTyped(f, schema) then None else Some(Select(order, pages, f))
    {
      r := if |log| in faults || !WellTyped(f, schema) then None else Some(Select(order, pages, f));
      log := log + [QueryDatabase(f)];
    }

    /** `users.list` */
    method UsersList() returns (r: Option<seq<User>>)
      modifies this`log
      ensures log == old(log) + [ListUsers]
      ensures r == if |old(log)| in faults then None else Some(users)
    {
      r := if |log| in faults then None else Some(users);
      log := log + [ListUsers];
    }

    /** `pages.update` of the `Status` property with a payload of type `kind` */
    method PagesUpdate(id: PageId, kind: PropType, status: string) returns (ok: bool)
      requires Valid()
      modifies this
      ensures Valid()
      ensures log == old(log) + [UpdatePage(id, kind, status)]
      ensures ok == Accepts(faults, schema, old(pages), |old(log)|, id, kind)
      ensures pages == if ok then SetStatus(old(pages), id, status) else old(pages)
    {
      ok := Accepts(faults, schema, pages, |log|, id, kind);
      if ok {
        pages := SetStatus(pages, id, status);
      }
      log := log + [UpdatePage(id, kind, status)];
    }
  }
}
