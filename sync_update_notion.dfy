/**
 * scripts/notion-sync/update-notion.js: the tracked-branch gate, the key-then-digits
 * extractor, and the pull-request and push handlers of the notion-sync workflow.
 */
module SyncUpdateNotion {
  import opened Wrappers
  import opened Text
  import opened BranchPrefix
  import opened Store
  import opened Lifecycle
  import SyncNotionClient

  /** The base branches whose pull requests are tracked, compared lower-cased */
  const TrackedBranches: seq<string> := ["dev", "development", "main"]

  predicate IsTracked(branch: string)
  {
    Lower(branch) in TrackedBranches
  }

  /** `feature|bugfix|hotfix|chore|fix|feat` */
  const SyncPrefixes: seq<string> := ["feature", "bugfix", "hotfix", "chore", "fix", "feat"]

  lemma SyncPrefixesCanonical()
    ensures Canonical(SyncPrefixes)
  {
    forall i | 0 <= i < |SyncPrefixes|
      ensures Lower(SyncPrefixes[i]) == SyncPrefixes[i] && '/' !in SyncPrefixes[i]
    {
      LowercaseWordCanonical(SyncPrefixes[i]);
    }
  }

  /** The optional key group `[A-Z]+-` can end at position `j`: letters before it and `-` at it */
  predicate KeyDashAt(r: string, j: nat)
  {
    0 < j < |r| && r[j] == '-' && forall i :: 0 <= i < j ==> IsLetter(r[i])
  }

  /**
   * `[A-Z]+` gives letters back in vain: a shorter run is followed by a letter, not `-`,
   * so the key group can only end right after the whole leading letter run.
   */
  lemma KeyDashUnique(r: string, j: nat)
    requires KeyDashAt(r, j)
    ensures j == |LeadingLetters(r)|
  {
  }

  /**
   * `(?:[A-Z]+-)?(\d+)` under `i`, not anchored at the end: the digits right after a
   * leading `letters-` key when there are any, else the digits at the very start.
   */
  function KeyThenDigits(r: string): (d: Option<string>)
    ensures d.Some? ==> AllDigits(d.value)
  {
    var key := LeadingLetters(r);
    if 0 < |key| < |r| && r[|key|] == '-' && LeadingDigits(r[|key| + 1..]) != [] then Some(LeadingDigits(r[|key| + 1..]))
    else if LeadingDigits(r) != [] then Some(LeadingDigits(r))
    else None
  }

  /**
   * The captured digits are a digit run starting right after the key's `-` or right at
   * the start of the remainder, and there is no capture exactly when neither position
   * starts a digit run.
   */
  lemma KeyThenDigitsMeaning(r: string)
    ensures KeyThenDigits(r).Some? ==>
      var d := KeyThenDigits(r).value;
      d == LeadingDigits(r) || exists j :: KeyDashAt(r, j) && d == LeadingDigits(r[j + 1..])
    ensures KeyThenDigits(r).None? <==>
      LeadingDigits(r) == [] && forall j :: KeyDashAt(r, j) ==> LeadingDigits(r[j + 1..]) == []
  {
    var key := LeadingLetters(r);
    forall j | KeyDashAt(r, j)
      ensures j == |key|
    {
      KeyDashUnique(r, j);
    }
    if 0 < |key| < |r| && r[|key|] == '-' {
      assert KeyDashAt(r, |key|);
    }
  }

  /** `extractTaskIdNumberFromBranch` of the notion-sync script */
  function SyncExtractTaskNumber(branchName: string): Option<nat>
  {
    match MatchPrefix(SyncPrefixes, branchName)
    case None => None
    case Some(r) =>
      match KeyThenDigits(r)
      case None => None
      case Some(d) => Some(DecimalValue(d))
  }

  /** A segment before the first `/` that is not one of the six prefixes, in any case, gives `null` */
  lemma SyncUnapprovedRejected(q: string, r: string)
    requires '/' !in q
    requires Lower(q) !in SyncPrefixes
    ensures SyncExtractTaskNumber(q + "/" + r) == None
  {
    UnapprovedSegmentRejected(SyncPrefixes, q, r);
  }

  /** A branch name without any digit gives `null` */
  lemma NoDigitsNoNumber(branchName: string)
    requires forall i :: 0 <= i < |branchName| ==> !IsDigit(branchName[i])
    ensures SyncExtractTaskNumber(branchName) == None
  {
    SyncPrefixesCanonical();
    MatchPrefixIsApprovedRemainder(SyncPrefixes, branchName);
    match IndexOf(branchName, '/')
    case None =>
    case Some(k) =>
      var t := branchName[k + 1..];
      assert forall i :: 0 <= i < |t| ==> t[i] == branchName[k + 1 + i];
  }

  lemma FeatureApproved()
    ensures Lower("feature") in SyncPrefixes
  {
    assert Lower("feature") == "feature";
    assert SyncPrefixes[0] == "feature";
  }

  /** After the prefix, the number is read from the remainder alone */
  lemma SyncNumberAfterPrefix(q: string, r: string)
    requires Lower(q) in SyncPrefixes
    ensures SyncExtractTaskNumber(q + "/" + r) == if KeyThenDigits(r).Some? then Some(DecimalValue(KeyThenDigits(r).value)) else None
  {
    SyncPrefixesCanonical();
    RemainderAfterPrefix(SyncPrefixes, q, r);
  }

  /** A `letters-` key followed by digits and then anything that does not start with a digit gives those digits */
  lemma KeyThenDigitsOf(key: string, digits: string, rest: string)
    requires AllLetters(key) && AllDigits(digits)
    requires rest == [] || !IsDigit(rest[0])
    ensures KeyThenDigits(key + "-" + digits + rest) == Some(digits)
  {
    var r := key + "-" + digits + rest;
    assert r == key + ("-" + digits + rest);
    LeadingLettersBefore(key, "-" + digits + rest);
    assert r[|key|] == '-';
    assert r[|key| + 1..] == digits + rest;
    LeadingDigitsBefore(digits, rest);
  }

  lemma KeyNumberDescriptionParts()
    ensures "feature/GEN-5694-login" == "feature" + "/" + ("GEN" + "-" + "5694" + "-login")
    ensures AllLetters("GEN") && AllDigits("5694") && !IsDigit("-login"[0])
  {
  }

  /** Trailing text is allowed: `feature/GEN-5694-login` gives 5694 */
  lemma ExampleKeyNumberDescription()
    ensures SyncExtractTaskNumber("feature/GEN-5694-login") == Some(5694)
  {
    KeyNumberDescriptionParts();
    FeatureApproved();
    SyncNumberAfterPrefix("feature", "GEN" + "-" + "5694" + "-login");
    KeyThenDigitsOf("GEN", "5694", "-login");
    DecimalValue5694();
  }

  lemma FirstRunParts()
    ensures "feature/TES-76S-2" == "feature" + "/" + ("TES" + "-" + "76" + "S-2")
    ensures AllLetters("TES") && AllDigits("76") && !IsDigit("S-2"[0])
    ensures DecimalValue("76") == 76
  {
    assert "76"[..1] == "7";
  }

  /** The digit run right after the key: `feature/TES-76S-2` gives 76 */
  lemma ExampleFirstRun()
    ensures SyncExtractTaskNumber("feature/TES-76S-2") == Some(76)
  {
    FirstRunParts();
    FeatureApproved();
    SyncNumberAfterPrefix("feature", "TES" + "-" + "76" + "S-2");
    KeyThenDigitsOf("TES", "76", "S-2");
  }

  /** A `letters-` key followed by a non-digit gives no number */
  lemma KeyWithoutDigits(key: string, rest: string)
    requires AllLetters(key)
    requires rest != [] && !IsDigit(rest[0])
    ensures KeyThenDigits(key + "-" + rest) == None
  {
    var r := key + "-" + rest;
    assert r == key + ("-" + rest);
    LeadingLettersBefore(key, "-" + rest);
    assert r[|key| + 1..] == rest;
    assert r[0] == key[0];
  }

  lemma NoRunAfterKeyParts()
    ensures "feature/abc-def-12" == "feature" + "/" + ("abc" + "-" + "def-12")
    ensures AllLetters("abc") && !IsDigit("def-12"[0])
  {
  }

  /** Digits must follow the key's `-` at once: `feature/abc-def-12` gives `null` */
  lemma ExampleNoRunAfterKey()
    ensures SyncExtractTaskNumber("feature/abc-def-12") == None
  {
    NoRunAfterKeyParts();
    FeatureApproved();
    SyncNumberAfterPrefix("feature", "abc" + "-" + "def-12");
    KeyWithoutDigits("abc", "def-12");
  }

  /**
   * `handlePullRequestEvent`: an untracked base branch, or a branch name that yields
   * no number or 0, ends the handler before any request; otherwise the guarded
   * `Task ID` lookup runs, and only a found page and a status-setting action lead to
   * the one update of its `Status` status. `Some(false)` stands for the update that
   * throws and ends the script.
   */
  method HandlePullRequest(db: Database, targetBranch: string, branchName: string, action: string, merged: bool)
    returns (updated: Option<bool>)
    requires db.Valid()
    modifies db
    ensures db.Valid()
    ensures var n := SyncExtractTaskNumber(branchName);
      if !IsTracked(targetBranch) || n.None? || n.value == 0 then
        updated.None? && db.log == old(db.log) && db.pages == old(db.pages)
      else
        var call := |old(db.log)|;
        var lookups := SyncNotionClient.TaskLookupRequests(call, db.faults, db.schema, Number(n.value));
        var page := SyncNotionClient.TaskLookupResult(call, db.faults, db.schema, db.order, old(db.pages), Number(n.value));
        var status := PrActionStatus(action, merged);
        if page.Some? && status.Some? then
          var ok := Accepts(db.faults, db.schema, old(db.pages), call + |lookups|, page.value, StatusType);
          updated == Some(ok) &&
          db.log == old(db.log) + lookups + [UpdatePage(page.value, StatusType, status.value)] &&
          db.pages == if ok then SetStatus(old(db.pages), page.value, status.value) else old(db.pages)
        else
          updated.None? && db.log == old(db.log) + lookups && db.pages == old(db.pages)
  {
    if !IsTracked(targetBranch) {
      return None;
    }
    var numericTaskId := SyncExtractTaskNumber(branchName);
    if numericTaskId.None? || numericTaskId.value == 0 {
      return None;
    }
    var page := SyncNotionClient.FindPageByTaskId(db, Number(numericTaskId.value));
    if page.None? {
      return None;
    }
    var status := PrActionStatus(action, merged);
    if status.None? {
      return None;
    }
    var ok := SyncNotionClient.UpdatePageStatus(db, page.value, status.value);
    updated := Some(ok);
  }

  /**
   * `handlePushEvent`: it only tells a direct push to a tracked branch from any other
   * push; it issues no request, so no page changes on any branch.
   */
  method HandlePush(db: Database, ref: string) returns (direct: bool)
    ensures direct <==> Lower(PushedBranch(ref)) in TrackedBranches
  {
    var branch := PushedBranch(ref);
    direct := IsTracked(branch);
  }
}
