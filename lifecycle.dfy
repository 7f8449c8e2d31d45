/**
 * The status values the scripts write and search for, the pull-request action table
 * and the branch name a push event names; shared by both workflow scripts.
 */
module Lifecycle {
  import opened Wrappers
  import opened Text

  const InProgress := "In Progress"
  const InCodeReview := "In Code Review"
  const InDev := "In Dev"
  const FailedInDev := "Failed in Dev"
  const ReadyForUat := "Ready for UAT"
  const InUat := "In UAT"
  const PassedUat := "Passed UAT"
  const LiveInProd := "Live in Prod"

  /** The statuses a pull-request event can set */
  const PrTargets: set<string> := {InProgress, InCodeReview, InDev}

  /**
   * The `switch (action)` both pull-request handlers run once a page is found: the
   * status it moves to, or `None` for an unmerged close and for every other action.
   */
  function PrActionStatus(action: string, merged: bool): (r: Option<string>)
    ensures r.Some? ==> r.value in PrTargets
    ensures r == Some(InProgress) <==> action == "opened"
    ensures r == Some(InCodeReview) <==> action == "review_requested"
    ensures r == Some(InDev) <==> action == "closed" && merged
  {
    if action == "opened" then Some(InProgress)
    else if action == "review_requested" then Some(InCodeReview)
    else if action == "closed" && merged then Some(InDev)
    else None
  }

  /** `ref.replace('refs/heads/', '')`: the first occurrence is removed, wherever it is */
  function PushedBranch(ref: string): string
  {
    ReplaceFirst(ref, "refs/heads/", "")
  }

  /** A branch ref gives back its branch name */
  lemma PushedBranchOfHead(branch: string)
    ensures PushedBranch("refs/heads/" + branch) == branch
  {
    var ref := "refs/heads/" + branch;
    assert StartsWith(ref, "refs/heads/");
    assert ref[11..] == branch;
  }
}
