/**
 * scripts/notion-sync/update-notion-uat.js: on a pull request into `uat`, the tickets
 * in a pre-UAT status whose Notion assignee is one of the allowed people and matches
 * a PR assignee are found, and a merge moves them to `In UAT`.
 */
module UpdateNotionUat {
  import opened Wrappers
  import opened Seqs
  import opened Text
  import opened Store
  import opened Lifecycle
  import SyncNotionClient

  /** A PR assignee as the event payload gives it: `login` and `name`, either possibly missing */
  datatype GitHubUser = GitHubUser(login: Option<string>, name: Option<string>)

  /** Whether a payload string is truthy: present and not empty */
  predicate Truthy(s: Option<string>)
  {
    s.Some? && s.value != ""
  }

  /** `(a.login || a.name || '').toLowerCase()` */
  function AssigneeKey(a: GitHubUser): (key: string)
    ensures Truthy(a.login) ==> key == Lower(a.login.value)
    ensures !Truthy(a.login) && Truthy(a.name) ==> key == Lower(a.name.value)
    ensures !Truthy(a.login) && !Truthy(a.name) ==> key == ""
  {
    Lower(if Truthy(a.login) then a.login.value else if Truthy(a.name) then a.name.value else "")
  }

  /** The keys of `(pull_request.assignees || [])`, one per assignee, in order */
  function PrKeys(assignees: Option<seq<GitHubUser>>): seq<string>
  {
    match assignees
    case None => []
    case Some(users) => seq(|users|, i requires 0 <= i < |users| => AssigneeKey(users[i]))
  }

  const AllowedNames: seq<string> := ["Mel", "Lisa", "Zaid", "Hassan"]

  /** `allowedNames.map(n => n.toLowerCase())` */
  function AllowedLower(): seq<string>
  {
    seq(|AllowedNames|, i requires 0 <= i < |AllowedNames| => Lower(AllowedNames[i]))
  }

  /** The statuses the UAT move starts from, in the order the query lists them */
  const CandidateStatuses: seq<string> := [InDev, FailedInDev, ReadyForUat]

  /** `prAssignees.some(pa => pa.includes(notionName) || notionName.includes(pa))` */
  predicate SomeKeyOverlaps(notionName: string, prKeys: seq<string>)
  {
    exists i :: 0 <= i < |prKeys| && (Contains(prKeys[i], notionName) || Contains(notionName, prKeys[i]))
  }

  /** The test for one lower-cased Notion assignee name */
  predicate NameMatches(notionName: string, prKeys: seq<string>)
  {
    notionName in AllowedLower() && SomeKeyOverlaps(notionName, prKeys)
  }

  /** The `filter` callback: some Notion assignee's lower-cased name matches */
  predicate KeepTicket(pages: map<PageId, Page>, id: PageId, prKeys: seq<string>)
  {
    id in pages &&
    exists j :: 0 <= j < |pages[id].assignees| && NameMatches(Lower(pages[id].assignees[j].name), prKeys)
  }

  /**
   * `allTickets.filter(...)`: the tickets kept are an order-preserving subsequence of
   * those found, and a found ticket is kept exactly when it passes the test.
   */
  function KeepTickets(ids: seq<PageId>, pages: map<PageId, Page>, prKeys: seq<string>): (kept: seq<PageId>)
    ensures IsSubsequence(kept, ids)
    ensures forall id :: id in kept <==> id in ids && KeepTicket(pages, id, prKeys)
  {
    if ids == [] then []
    else
      var rest := KeepTickets(ids[1..], pages, prKeys);
      assert forall id :: id in ids <==> id == ids[0] || id in ids[1..];
      if KeepTicket(pages, ids[0], prKeys) then
        assert IsSubsequence([ids[0]] + rest, ids) by {
          assert ([ids[0]] + rest)[1..] == rest;
        }
        [ids[0]] + rest
      else
        SubsequenceOfCons(rest, ids[1..], ids[0]);
        assert [ids[0]] + ids[1..] == ids;
        rest
  }

  /** Every string contains the empty string */
  lemma ContainsEmpty(s: string)
    ensures Contains(s, "")
  {
    assert StartsWith(s, "");
  }

  /** An assignee with neither login nor name gives the key `''`, which matches every allowed name */
  lemma EmptyKeyMatchesAllowed(assignees: seq<GitHubUser>, i: nat, notionName: string)
    requires i < |assignees| && !Truthy(assignees[i].login) && !Truthy(assignees[i].name)
    requires notionName in AllowedLower()
    ensures NameMatches(notionName, PrKeys(Some(assignees)))
  {
    var keys := PrKeys(Some(assignees));
    assert keys[i] == "";
    ContainsEmpty(notionName);
  }

  /** With no PR assignees no ticket is kept */
  lemma NoAssigneesNoTickets(ids: seq<PageId>, pages: map<PageId, Page>)
    ensures KeepTickets(ids, pages, PrKeys(Some([]))) == []
    ensures KeepTickets(ids, pages, PrKeys(None)) == []
  {
    assert PrKeys(Some([])) == [] && PrKeys(None) == [];
  }

  /** Only tickets the candidate-status query returned are kept, so every kept ticket has a candidate status */
  lemma KeptHaveCandidateStatus(call: nat, faults: set<nat>, schema: map<string, PropType>, order: seq<PageId>,
                                pages: map<PageId, Page>, prKeys: seq<string>, id: PageId)
    requires id in KeepTickets(SyncNotionClient.StatusQueryResult(call, faults, schema, order, pages, CandidateStatuses), pages, prKeys)
    ensures id in pages && pages[id].status in CandidateStatuses
  {
    var all := SyncNotionClient.StatusQueryResult(call, faults, schema, order, pages, CandidateStatuses);
    var f := SyncNotionClient.StatusFilter(CandidateStatuses);
    assert id in all;
    var i :| 0 <= i < |all| && all[i] == id;
    SelectSound(order, pages, f);
    assert Selected(pages, f, all[i]);
    SyncNotionClient.StatusFilterMeaning(CandidateStatuses, pages[id], schema);
  }

  /** The script's two gates: a `pull_request` event whose base branch, lower-cased, is `uat` */
  predicate UatGate(eventName: string, targetBranch: string)
  {
    eventName == "pull_request" && Lower(targetBranch) == "uat"
  }

  /**
   * The script body after the gates: one candidate-status query, the ticket filter, and
   * on a merged close the bulk move of the kept tickets to `In UAT`. Outside the gates
   * nothing is requested; any other action only queries.
   */
  method Run(db: Database, eventName: string, targetBranch: string, action: string, merged: bool,
             assignees: Option<seq<GitHubUser>>) returns (outcome: Option<BulkOutcome>)
    requires db.Valid()
    modifies db
    ensures db.Valid()
    ensures !UatGate(eventName, targetBranch) ==> outcome.None? && db.log == old(db.log) && db.pages == old(db.pages)
    ensures UatGate(eventName, targetBranch) ==>
      var all := SyncNotionClient.StatusQueryResult(|old(db.log)|, db.faults, db.schema, db.order, old(db.pages), CandidateStatuses);
      var kept := KeepTickets(all, old(db.pages), PrKeys(assignees));
      var query := [QueryDatabase(SyncNotionClient.StatusFilter(CandidateStatuses))];
      NoDuplicates(kept) &&
      if action == "closed" && merged then
        outcome.Some? &&
        (outcome.value.FailedAt? ==> outcome.value.index < |kept|) &&
        db.pages == SetStatusAll(old(db.pages), kept[..Completed(outcome.value, |kept|)], InUat) &&
        db.log == old(db.log) + query + UpdateRequests(kept[..Attempted(outcome.value, |kept|)], StatusType, InUat)
      else
        outcome.None? && db.log == old(db.log) + query && db.pages == old(db.pages)
    ensures forall id :: id in db.pages <==> id in old(db.pages)
    ensures forall id :: id in old(db.pages) ==>
      db.pages[id] == old(db.pages)[id] ||
      (old(db.pages)[id].status in CandidateStatuses && KeepTicket(old(db.pages), id, PrKeys(assignees)) &&
       db.pages[id] == old(db.pages)[id].(status := InUat))
  {
    if eventName != "pull_request" {
      return None;
    }
    if Lower(targetBranch) != "uat" {
      return None;
    }
    var prAssignees := PrKeys(assignees);
    ghost var before := db.pages;
    ghost var call := |db.log|;
    var allTickets := SyncNotionClient.FindPagesByStatus(db, CandidateStatuses);
    var matchingTickets := KeepTickets(allTickets, db.pages, prAssignees);
    SyncNotionClient.StatusQueryNoDuplicates(call, db.faults, db.schema, db.order, before, CandidateStatuses);
    SubsequenceNoDuplicates(matchingTickets, allTickets);
    outcome := None;
    if action == "closed" && merged {
      var result := SyncNotionClient.UpdateMultiplePagesStatus(db, matchingTickets, InUat);
      outcome := Some(result);
      var moved := matchingTickets[..Completed(result, |matchingTickets|)];
      forall id | id in before
        ensures id in db.pages
        ensures db.pages[id] == before[id] ||
          (before[id].status in CandidateStatuses && KeepTicket(before, id, prAssignees) &&
           db.pages[id] == before[id].(status := InUat))
      {
        SetStatusAllFrame(before, moved, InUat, id);
        if id in moved {
          assert id in matchingTickets;
          KeptHaveCandidateStatus(call, db.faults, db.schema, db.order, before, prAssignees, id);
        }
      }
      forall id | id in db.pages
        ensures id in before
      {
        SetStatusAllFrame(before, moved, InUat, id);
      }
    }
  }
}
