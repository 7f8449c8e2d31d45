/**
 * scripts/update-notion.js: the two branch-name extractors, the three-step lookup
 * fallback chain, and the pull-request and push handlers of the root workflow script.
 * The root client has no `findPageByTaskId`, so the lookup the chain calls is a
 * function parameter `find`.
 */
module UpdateNotion {
  import opened Wrappers
  import opened Seqs
  import opened Text
  import opened BranchPrefix
  import opened Store
  import opened Lifecycle
  import NotionClient

  /** `feature|fix|hotfix|bugfix|chore|docs|style|refactor|test|release` */
  const RootPrefixes: seq<string> := ["feature", "fix", "hotfix", "bugfix", "chore", "docs", "style", "refactor", "test", "release"]

  lemma RootPrefixesCanonical()
    ensures Canonical(RootPrefixes)
  {
    forall i | 0 <= i < |RootPrefixes|
      ensures Lower(RootPrefixes[i]) == RootPrefixes[i] && '/' !in RootPrefixes[i]
    {
      LowercaseWordCanonical(RootPrefixes[i]);
    }
  }

  // ---------------------------------------------------------------------------
  // extractTaskIdFromBranch: four patterns after the prefix, each capturing all of it

  /** `([A-Z]+-[A-Z0-9]+-\d+)$` under `i`: three `-`-separated parts: letters, letters or digits, digits */
  predicate KeyCodeNumberPattern(r: string)
  {
    var parts := Split(r, '-');
    |parts| == 3 && AllLetters(parts[0]) && AllLettersOrDigits(parts[1]) && AllDigits(parts[2])
  }

  /** `([A-Z]+-\d+)$` under `i`: two `-`-separated parts: letters, digits */
  predicate KeyNumberPattern(r: string)
  {
    var parts := Split(r, '-');
    |parts| == 2 && AllLetters(parts[0]) && AllDigits(parts[1])
  }

  /** `(\d+)$` */
  predicate NumberPattern(r: string)
  {
    AllDigits(r)
  }

  /** `(.+)$`: one or more characters, none a line terminator, up to the end of input */
  predicate AnyPattern(r: string)
  {
    |r| > 0 && NoLineTerminator(r)
  }

  /** The four patterns after the prefix, tried in order; each captures all of `r` */
  function RemainderId(r: string): Option<string>
  {
    if KeyCodeNumberPattern(r) then Some(r)
    else if KeyNumberPattern(r) then Some(r)
    else if NumberPattern(r) then Some(r)
    else if AnyPattern(r) then Some(r)
    else None
  }

  /** `extractTaskIdFromBranch`: the capture of the first pattern that matches */
  function ExtractTaskId(branchName: string): Option<string>
  {
    match MatchPrefix(RootPrefixes, branchName)
    case None => None
    case Some(r) => RemainderId(r)
  }

  /** Each of the three specific patterns only matches what the catch-all also matches, so only the catch-all decides */
  lemma SpecificPatternsImplyAny(r: string)
    ensures KeyCodeNumberPattern(r) || KeyNumberPattern(r) || NumberPattern(r) ==> AnyPattern(r)
    ensures RemainderId(r) == if AnyPattern(r) then Some(r) else None
  {
    var parts := Split(r, '-');
    if KeyCodeNumberPattern(r) || KeyNumberPattern(r) {
      assert PartsOneLine(parts) by {
        forall i | 0 <= i < |parts|
          ensures NoLineTerminator(parts[i])
        {
          assert AllLettersOrDigits(parts[i]);
        }
      }
      SplitKeepsOneLine(r, '-');
      SplitFirstNonEmpty(r, '-');
    }
  }

  /**
   * `extractTaskIdFromBranch` returns exactly the text after an approved prefix and its
   * `/`, provided that text is non-empty and a single line, and `null` otherwise.
   */
  lemma ExtractTaskIdIsRemainder(branchName: string)
    ensures ExtractTaskId(branchName) ==
      match ApprovedRemainder(RootPrefixes, branchName)
      case None => None
      case Some(r) => if |r| > 0 && NoLineTerminator(r) then Some(r) else None
  {
    RootPrefixesCanonical();
    MatchPrefixIsApprovedRemainder(RootPrefixes, branchName);
    match MatchPrefix(RootPrefixes, branchName)
    case None =>
    case Some(r) => SpecificPatternsImplyAny(r);
  }

  // ---------------------------------------------------------------------------
  // extractTaskIdNumberFromBranch: `(?:.*-)?(\d+)$`, then `(?:.*)?(\d+)`

  /**
   * The first pattern after the prefix, as the regular-expression engine searches it:
   * the greedy `.*` gives back characters one at a time from the end of the first line
   * (`k` is how many it keeps); at each `k` the next character must be `-` and the rest
   * of the input digits. When no `k` works, the optional group is skipped and the whole
   * text must be digits.
   */
  function DashThenDigits(r: string, k: nat): (d: Option<string>)
    requires k <= LineEnd(r)
    ensures d.Some? ==> AllDigits(d.value)
    decreases k
  {
    if k < |r| && r[k] == '-' && AllDigits(r[k + 1..]) then Some(r[k + 1..])
    else if k == 0 then (if AllDigits(r) then Some(r) else None)
    else DashThenDigits(r, k - 1)
  }

  /**
   * The second pattern, which is not anchored at the end: the greedy `.*` gives back
   * characters until a digit follows it, and `\d+` takes the digit run from there.
   * Skipping the optional group retries `\d+` at the start, which `k = 0` has tried.
   */
  function GreedyThenDigits(r: string, k: nat): (d: Option<string>)
    requires k <= LineEnd(r)
    ensures d.Some? ==> AllDigits(d.value)
    decreases k
  {
    if k < |r| && IsDigit(r[k]) then Some(LeadingDigits(r[k..]))
    else if k == 0 then None
    else GreedyThenDigits(r, k - 1)
  }

  /** `parseInt` of the digits the first of the two patterns to match captures in the text after the prefix */
  function RemainderNumber(r: string): Option<nat>
  {
    match DashThenDigits(r, LineEnd(r))
    case Some(d) => Some(DecimalValue(d))
    case None =>
      match GreedyThenDigits(r, LineEnd(r))
      case Some(d) => Some(DecimalValue(d))
      case None => None
  }

  /** `extractTaskIdNumberFromBranch` */
  function ExtractTaskNumber(branchName: string): Option<nat>
  {
    match MatchPrefix(RootPrefixes, branchName)
    case None => None
    case Some(r) => RemainderNumber(r)
  }

  /** The position just before the trailing digit run of `r` (`-1` when `r` is all digits) */
  function DashPosition(r: string): int
  {
    |r| - |TrailingDigits(r)| - 1
  }

  predicate DashBeforeDigits(r: string, i: nat)
  {
    i < |r| && r[i] == '-' && AllDigits(r[i + 1..])
  }

  /** Only one position can be a `-` followed by digits to the end: the one before the trailing digit run */
  lemma DashBeforeDigitsUnique(r: string, i: nat)
    requires DashBeforeDigits(r, i)
    ensures i == DashPosition(r)
  {
  }

  /** Whether the scan over the first `k + 1` positions meets the `-` before the trailing digits */
  predicate DashWithin(r: string, k: nat)
  {
    0 <= DashPosition(r) <= k && DashBeforeDigits(r, DashPosition(r))
  }

  /** One step of the scan: a position that is not the `-` before the trailing digits is passed over */
  lemma DashScanStep(r: string, k: nat)
    requires 0 < k <= LineEnd(r)
    requires !DashBeforeDigits(r, k)
    ensures DashThenDigits(r, k) == DashThenDigits(r, k - 1)
    ensures DashWithin(r, k) <==> DashWithin(r, k - 1)
  {
  }

  /** The backtracking scan finds the `-` before the trailing digits if it lies within the scanned part */
  lemma {:induction false} DashScan(r: string, k: nat)
    requires k <= LineEnd(r)
    ensures DashThenDigits(r, k) ==
      if DashWithin(r, k) then Some(r[DashPosition(r) + 1..])
      else if AllDigits(r) then Some(r)
      else None
    decreases k
  {
    if DashBeforeDigits(r, k) {
      DashBeforeDigitsUnique(r, k);
    } else if k > 0 {
      DashScanStep(r, k);
      DashScan(r, k - 1);
    }
  }

  /** When `r` is more than its trailing digit run, the scan meets the `-` exactly when that run follows one */
  lemma DashScanShortRun(r: string)
    requires |TrailingDigits(r)| < |r|
    ensures DashPosition(r) == |r| - |TrailingDigits(r)| - 1
    ensures 0 <= DashPosition(r) < |r| && r[DashPosition(r) + 1..] == TrailingDigits(r)
    ensures !AllDigits(r)
    ensures DashWithin(r, |r|) <==> (r[DashPosition(r)] == '-' && |TrailingDigits(r)| > 0)
  {
    var j := DashPosition(r);
    assert !IsDigit(r[j]);
  }

  /** When `r` is all trailing digits, there is no `-` before them */
  lemma DashScanFullRun(r: string)
    requires |TrailingDigits(r)| == |r|
    ensures r == TrailingDigits(r) && !DashWithin(r, |r|)
    ensures AllDigits(r) <==> |r| > 0
  {
  }

  /** The full backtracking scan of a remainder with no line terminator, by the cases of its trailing digit run */
  lemma TrailingRunScan(r: string)
    requires LineEnd(r) == |r|
    ensures var d := TrailingDigits(r);
      DashThenDigits(r, |r|) ==
        if |d| > 0 && (|d| == |r| || r[|r| - |d| - 1] == '-') then Some(d) else None
  {
    DashScan(r, |r|);
    if |TrailingDigits(r)| < |r| {
      DashScanShortRun(r);
    } else {
      DashScanFullRun(r);
    }
  }

  /** The first pattern matches a one-line `r` exactly when it is digits, or ends in `-` and digits */
  lemma TrailingRunCases(r: string)
    requires NoLineTerminator(r)
    ensures var d := TrailingDigits(r);
      DashThenDigits(r, LineEnd(r)) ==
        if |d| > 0 && (|d| == |r| || r[|r| - |d| - 1] == '-') then Some(d) else None
  {
    LineEndOfOneLine(r);
    TrailingRunScan(r);
  }

  /**
   * The greedy scan from position `k` down, when no digit follows `k`: it stops at the
   * last digit of `r` and captures that digit alone, or finds none when `r` has no digit.
   */
  lemma {:induction false} GreedyScan(r: string, k: nat)
    requires k <= LineEnd(r)
    requires forall j :: k < j < |r| ==> !IsDigit(r[j])
    ensures match GreedyThenDigits(r, k)
      case None => LastDigit(r) == None
      case Some(d) => |d| == 1 && LastDigit(r) == Some(DecimalValue(d))
    decreases k
  {
    if k < |r| && IsDigit(r[k]) {
      var d := LeadingDigits(r[k..]);
      assert r[k..][0] == r[k];
      assert k + 1 < |r| ==> r[k..][1] == r[k + 1];
      assert d == [r[k]];
      assert DecimalValue(d) == DigitValue(r[k]) by {
        assert d[..0] == [];
      }
      LastDigitIs(r, k);
    } else if k == 0 {
      NoDigitAtAll(r);
    } else {
      GreedyScan(r, k - 1);
    }
  }

  /** `LastDigit` finds the digit after which no digit follows */
  lemma {:induction false} LastDigitIs(s: string, i: nat)
    requires i < |s| && IsDigit(s[i])
    requires forall j :: i < j < |s| ==> !IsDigit(s[j])
    ensures LastDigit(s) == Some(DigitValue(s[i]))
    decreases |s|
  {
    if i < |s| - 1 {
      LastDigitIs(s[..|s| - 1], i);
    }
  }

  lemma {:induction false} NoDigitAtAll(s: string)
    requires forall j :: 0 <= j < |s| ==> !IsDigit(s[j])
    ensures LastDigit(s) == None
    decreases |s|
  {
    if s != [] {
      NoDigitAtAll(s[..|s| - 1]);
    }
  }

  /** On a one-line `r` the second pattern captures a single digit: the last digit of `r` */
  lemma GreedyDigitScan(r: string)
    requires NoLineTerminator(r)
    ensures match GreedyThenDigits(r, LineEnd(r))
      case None => LastDigit(r) == None
      case Some(d) => |d| == 1 && LastDigit(r) == Some(DecimalValue(d))
  {
    LineEndOfOneLine(r);
    GreedyScan(r, |r|);
  }

  /**
   * The number read from a one-line remainder: its trailing digit run when it is all
   * digits or ends in `-` and digits; otherwise its last single digit, and `null`
   * when it has none.
   */
  lemma RemainderNumberCases(r: string)
    requires NoLineTerminator(r)
    ensures var d := TrailingDigits(r);
      RemainderNumber(r) ==
        if |d| > 0 && (|d| == |r| || r[|r| - |d| - 1] == '-') then Some(DecimalValue(d)) else LastDigit(r)
  {
    TrailingRunCases(r);
    GreedyDigitScan(r);
  }

  /** `extractTaskIdNumberFromBranch` on any spelling of an approved prefix, `/`, and a one-line remainder */
  lemma ExtractTaskNumberCases(q: string, r: string)
    requires Lower(q) in RootPrefixes
    requires NoLineTerminator(r)
    ensures var d := TrailingDigits(r);
      ExtractTaskNumber(q + "/" + r) ==
        if |d| > 0 && (|d| == |r| || r[|r| - |d| - 1] == '-') then Some(DecimalValue(d)) else LastDigit(r)
  {
    RootPrefixesCanonical();
    RemainderAfterPrefix(RootPrefixes, q, r);
    RemainderNumberCases(r);
  }

  /** Both extractors return `null` when the segment before the first `/` is not an approved prefix */
  lemma UnapprovedBranchRejected(q: string, r: string)
    requires '/' !in q
    requires Lower(q) !in RootPrefixes
    ensures ExtractTaskId(q + "/" + r) == None
    ensures ExtractTaskNumber(q + "/" + r) == None
  {
    RootPrefixesCanonical();
    UnapprovedSegmentRejected(RootPrefixes, q, r);
  }

  /** `extractTaskIdFromBranch` on any spelling of an approved prefix, `/`, and a non-empty one-line remainder */
  lemma ExtractTaskIdAfterPrefix(q: string, r: string)
    requires Lower(q) in RootPrefixes
    requires |r| > 0 && NoLineTerminator(r)
    ensures ExtractTaskId(q + "/" + r) == Some(r)
  {
    RootPrefixesCanonical();
    RemainderAfterPrefix(RootPrefixes, q, r);
    SpecificPatternsImplyAny(r);
  }

  lemma FeatureApproved()
    ensures Lower("feature") in RootPrefixes
  {
    assert Lower("feature") == "feature";
    assert RootPrefixes[0] == "feature";
  }

  /** The trailing digit run of a text ending in a non-digit and then digits is those digits */
  lemma TrailingDigitsAfter(a: string, d: string)
    requires DigitsOnly(d)
    requires a != [] && !IsDigit(a[|a| - 1])
    ensures TrailingDigits(a + d) == d
  {
    assert (a + d)[|a|..] == d;
  }

  /** The example branch names split at their first `/` */
  lemma KeyCodeNumberBranch()
    ensures "feature/TES-76S-2" == "feature" + "/" + "TES-76S-2"
  {
  }

  lemma KeyNumberBranch()
    ensures "feature/GEN-5694" == "feature" + "/" + "GEN-5694"
  {
  }

  lemma NumberBranch()
    ensures "feature/123" == "feature" + "/" + "123"
  {
  }

  lemma UnterminatedKeyBranch()
    ensures "Feature/TES-76S" == "Feature" + "/" + "TES-76S"
  {
  }

  lemma WipBranch()
    ensures "wip/42" == "wip" + "/" + "42"
  {
  }

  /** `feature/TES-76S-2` gives the full id `TES-76S-2` */
  lemma ExampleKeyCodeNumberId()
    ensures ExtractTaskId("feature/TES-76S-2") == Some("TES-76S-2")
  {
    var q, r := "feature", "TES-76S-2";
    KeyCodeNumberBranch();
    FeatureApproved();
    ExtractTaskIdAfterPrefix(q, r);
  }

  /** `feature/TES-76S-2` gives the number 2 */
  lemma ExampleKeyCodeNumber()
    ensures ExtractTaskNumber("feature/TES-76S-2") == Some(2)
  {
    var q, r := "feature", "TES-76S-2";
    KeyCodeNumberBranch();
    FeatureApproved();
    TrailingDigitsOfKeyCodeNumber();
    ExtractTaskNumberCases(q, r);
  }

  lemma TrailingDigitsOfKeyCodeNumber()
    ensures TrailingDigits("TES-76S-2") == "2" && "TES-76S-2"[7] == '-' && DecimalValue("2") == 2
  {
    assert "TES-76S-2" == "TES-76S-" + "2";
    TrailingDigitsAfter("TES-76S-", "2");
  }

  lemma TrailingDigitsOfKeyNumber()
    ensures TrailingDigits("GEN-5694") == "5694"
  {
    assert "GEN-5694" == "GEN-" + "5694";
    TrailingDigitsAfter("GEN-", "5694");
  }

  /** `feature/GEN-5694` gives the number 5694 */
  lemma ExampleKeyNumber()
    ensures ExtractTaskNumber("feature/GEN-5694") == Some(5694)
  {
    var q, r := "feature", "GEN-5694";
    KeyNumberBranch();
    FeatureApproved();
    ExtractTaskNumberCases(q, r);
    TrailingDigitsOfKeyNumber();
    DecimalValue5694();
  }

  lemma DigitsOfNumber()
    ensures TrailingDigits("123") == "123" && DecimalValue("123") == 123
  {
    assert "123"[..2] == "12";
    assert "12"[..1] == "1";
    assert "1"[..0] == "";
  }

  /** `feature/123` gives the number 123 */
  lemma ExampleNumber()
    ensures ExtractTaskNumber("feature/123") == Some(123)
  {
    var q, r := "feature", "123";
    NumberBranch();
    FeatureApproved();
    ExtractTaskNumberCases(q, r);
    DigitsOfNumber();
  }

  lemma DigitsOfUnterminatedKey()
    ensures TrailingDigits("TES-76S") == "" && LastDigit("TES-76S") == Some(6)
  {
    assert "TES-76S"[..6] == "TES-76";
  }

  /** A remainder that does not end in digits yields only its last digit: `Feature/TES-76S` gives 6, not 76 */
  lemma ExampleLastSingleDigit()
    ensures ExtractTaskNumber("Feature/TES-76S") == Some(6)
  {
    var q, r := "Feature", "TES-76S";
    UnterminatedKeyBranch();
    assert Lower(q) == "feature";
    FeatureApproved();
    ExtractTaskNumberCases(q, r);
    DigitsOfUnterminatedKey();
  }

  lemma WipUnapproved()
    ensures '/' !in "wip" && Lower("wip") !in RootPrefixes
  {
    assert Lower("wip") == "wip";
  }

  /** `wip/42` is rejected by both extractors */
  lemma ExampleUnapproved()
    ensures ExtractTaskId("wip/42") == None && ExtractTaskNumber("wip/42") == None
  {
    var q, r := "wip", "42";
    WipBranch();
    WipUnapproved();
    UnapprovedBranchRejected(q, r);
  }

  // ---------------------------------------------------------------------------
  // handlePullRequestEvent: the lookup fallback chain

  /** Step 3's key: the part after the last `-` of the full id, when the id has a `-` and that part is all digits */
  function LastPartKey(full: Option<string>): seq<TaskKey>
  {
    if full.Some? && Contains(full.value, "-") && AllDigits(Last(Split(full.value, '-'))) then
      [Number(DecimalValue(Last(Split(full.value, '-'))))]
    else []
  }

  /**
   * The keys the chain would try, in order, if every lookup missed: the full id if
   * there is one, the numeric id if it is neither `null` nor `0`, and the last `-` part.
   */
  function FallbackKeys(branchName: string): seq<TaskKey>
  {
    var full := ExtractTaskId(branchName);
    var number := ExtractTaskNumber(branchName);
    (if full.Some? then [Key(full.value)] else [])
    + (if number.Some? && number.value != 0 then [Number(number.value)] else [])
    + LastPartKey(full)
  }

  /** The page of the first key that a lookup finds */
  function FirstFound(keys: seq<TaskKey>, find: TaskKey -> Option<PageId>): Option<PageId>
  {
    if keys == [] then None
    else if find(keys[0]).Some? then find(keys[0])
    else FirstFound(keys[1..], find)
  }

  /** The lookups issued: keys in order, up to and including the first that finds a page */
  function Probed(keys: seq<TaskKey>, find: TaskKey -> Option<PageId>): seq<TaskKey>
  {
    if keys == [] then []
    else if find(keys[0]).Some? then [keys[0]]
    else [keys[0]] + Probed(keys[1..], find)
  }

  /** The page found is that of the earliest key a lookup answers; `None` exactly when every lookup misses */
  lemma {:induction false} FirstFoundMeaning(keys: seq<TaskKey>, find: TaskKey -> Option<PageId>)
    ensures FirstFound(keys, find).Some? ==>
      exists i :: 0 <= i < |keys| && find(keys[i]) == FirstFound(keys, find) &&
                  forall j :: 0 <= j < i ==> find(keys[j]).None?
    ensures FirstFound(keys, find).None? <==> forall i :: 0 <= i < |keys| ==> find(keys[i]).None?
  {
    if keys != [] && find(keys[0]).None? {
      FirstFoundMeaning(keys[1..], find);
      assert forall i :: 0 < i < |keys| ==> keys[i] == keys[1..][i - 1];
      if FirstFound(keys, find).Some? {
        var i :| 0 <= i < |keys[1..]| && find(keys[1..][i]) == FirstFound(keys, find) &&
          forall j :: 0 <= j < i ==> find(keys[1..][j]).None?;
        assert find(keys[i + 1]) == FirstFound(keys, find);
      }
    }
  }

  /**
   * The chain stops at the first hit: the keys tried are a prefix of the candidates,
   * all but the last of them miss, the last finds the page when one is found, and
   * all candidates are tried when none is.
   */
  lemma {:induction false} ProbedMeaning(keys: seq<TaskKey>, find: TaskKey -> Option<PageId>)
    ensures var tried := Probed(keys, find);
      |tried| <= |keys| && tried == keys[..|tried|] &&
      (forall i :: 0 <= i < |tried| - 1 ==> find(tried[i]).None?) &&
      (FirstFound(keys, find).Some? ==> tried != [] && find(tried[|tried| - 1]) == FirstFound(keys, find)) &&
      (FirstFound(keys, find).None? ==> tried == keys)
  {
    if keys != [] && find(keys[0]).None? {
      ProbedMeaning(keys[1..], find);
      var rest := Probed(keys[1..], find);
      assert Probed(keys, find) == [keys[0]] + rest;
      assert forall i :: 0 < i < |[keys[0]] + rest| ==> ([keys[0]] + rest)[i] == rest[i - 1];
      assert keys == [keys[0]] + keys[1..];
    }
  }

  /** Searching a concatenation searches the second part only when the first finds nothing */
  lemma {:induction false} FirstFoundAppend(a: seq<TaskKey>, b: seq<TaskKey>, find: TaskKey -> Option<PageId>)
    ensures FirstFound(a + b, find) == if FirstFound(a, find).Some? then FirstFound(a, find) else FirstFound(b, find)
    decreases |a|
  {
    if a == [] {
      assert a + b == b;
    } else {
      assert (a + b)[0] == a[0] && (a + b)[1..] == a[1..] + b;
      if find(a[0]).None? {
        FirstFoundAppend(a[1..], b, find);
      }
    }
  }

  /** The keys tried on a concatenation run into the second part only when the first finds nothing */
  lemma {:induction false} ProbedAppend(a: seq<TaskKey>, b: seq<TaskKey>, find: TaskKey -> Option<PageId>)
    ensures Probed(a + b, find) == if FirstFound(a, find).Some? then Probed(a, find) else a + Probed(b, find)
    decreases |a|
  {
    if a == [] {
      assert a + b == b;
    } else {
      assert (a + b)[0] == a[0] && (a + b)[1..] == a[1..] + b;
      if find(a[0]).None? {
        ProbedAppend(a[1..], b, find);
        assert [a[0]] + (a[1..] + Probed(b, find)) == a + Probed(b, find);
      }
    }
  }

  /** One `if (!page)` step of the chain: at most one more key, tried only while nothing is found */
  lemma LookupStep(prev: seq<TaskKey>, step: seq<TaskKey>, find: TaskKey -> Option<PageId>,
                   page: Option<PageId>, tried: seq<TaskKey>)
    requires |step| <= 1
    requires page == FirstFound(prev, find) && tried == Probed(prev, find)
    ensures FirstFound(prev + step, find) == if page.None? && step != [] then find(step[0]) else page
    ensures Probed(prev + step, find) == if page.None? && step != [] then tried + [step[0]] else tried
  {
    FirstFoundAppend(prev, step, find);
    ProbedAppend(prev, step, find);
    if page.None? {
      ProbedMeaning(prev, find);
    }
    if step != [] {
      assert step[1..] == [];
      assert Probed(step, find) == [step[0]];
    }
  }

  /**
   * The fallback chain's page and the keys it tries. Each step runs only while no page
   * has been found: the full id, then the numeric id unless it is `null` or `0`, then,
   * when the full id has a `-`, its last part if that is all digits.
   */
  method ResolvePage(branchName: string, find: TaskKey -> Option<PageId>) returns (page: Option<PageId>, tried: seq<TaskKey>)
    ensures page == FirstFound(FallbackKeys(branchName), find)
    ensures tried == Probed(FallbackKeys(branchName), find)
  {
    var taskIdFromBranch := ExtractTaskId(branchName);
    var numericTaskId := ExtractTaskNumber(branchName);
    ghost var first := if taskIdFromBranch.Some? then [Key(taskIdFromBranch.value)] else [];
    ghost var second := if numericTaskId.Some? && numericTaskId.value != 0 then [Number(numericTaskId.value)] else [];
    ghost var third := LastPartKey(taskIdFromBranch);
    page := None;
    tried := [];
    LookupStep([], first, find, page, tried);
    assert [] + first == first;
    if taskIdFromBranch.Some? {
      tried := tried + [Key(taskIdFromBranch.value)];
      page := find(Key(taskIdFromBranch.value));
    }
    LookupStep(first, second, find, page, tried);
    if page.None? && numericTaskId.Some? && numericTaskId.value != 0 {
      tried := tried + [Number(numericTaskId.value)];
      page := find(Number(numericTaskId.value));
    }
    LookupStep(first + second, third, find, page, tried);
    if page.None? && taskIdFromBranch.Some? && Contains(taskIdFromBranch.value, "-") {
      var lastPart := Last(Split(taskIdFromBranch.value, '-'));
      if AllDigits(lastPart) {
        tried := tried + [Number(DecimalValue(lastPart))];
        page := find(Number(DecimalValue(lastPart)));
      }
    }
    assert FallbackKeys(branchName) == first + second + third;
  }

  /**
   * Step 3 retries step 2's number: whenever the full id has a `-` and its last part
   * is all digits, the numeric extractor read exactly that part.
   */
  lemma ThirdStepRepeatsNumber(branchName: string)
    requires LastPartKey(ExtractTaskId(branchName)) != []
    ensures ExtractTaskNumber(branchName).Some?
    ensures LastPartKey(ExtractTaskId(branchName)) == [Number(ExtractTaskNumber(branchName).value)]
  {
    var r := ExtractTaskId(branchName).value;
    assert MatchPrefix(RootPrefixes, branchName) == Some(r);
    SpecificPatternsImplyAny(r);
    LastPartNumber(r);
  }

  /** A one-line remainder whose last `-` part is all digits has that part as its number */
  lemma LastPartNumber(r: string)
    requires NoLineTerminator(r) && Contains(r, "-")
    requires AllDigits(Last(Split(r, '-')))
    ensures RemainderNumber(r) == Some(DecimalValue(Last(Split(r, '-'))))
  {
    var t := Last(Split(r, '-'));
    LastSplitIsTail(r, '-');
    LastSplitShorter(r, '-');
    var k := |r| - |t| - 1;
    assert r[k] == '-' && r[k + 1..] == t;
    NumberAfterDash(r, k);
  }

  /** Digits after a `-` up to the end of a one-line remainder are its number */
  lemma NumberAfterDash(r: string, k: nat)
    requires k < |r| && r[k] == '-' && AllDigits(r[k + 1..])
    requires NoLineTerminator(r)
    ensures RemainderNumber(r) == Some(DecimalValue(r[k + 1..]))
  {
    var a, t := r[..k + 1], r[k + 1..];
    assert r == a + t && a[|a| - 1] == '-';
    TrailingDigitsAfter(a, t);
    var d := TrailingDigits(r);
    assert d == t && |d| > 0 && r[|r| - |d| - 1] == '-';
    RemainderNumberCases(r);
  }

  /**
   * `handlePullRequestEvent`: when the chain finds a page and the action implies a
   * status, exactly one update of that page's `Status` select is issued; otherwise no
   * request at all (lookups go through `find`). `Some(false)` stands for the update
   * that throws and ends the script.
   */
  method HandlePullRequest(db: Database, branchName: string, action: string, merged: bool,
                           find: TaskKey -> Option<PageId>) returns (updated: Option<bool>)
    requires db.Valid()
    modifies db
    ensures db.Valid()
    ensures var page := FirstFound(FallbackKeys(branchName), find);
      var status := PrActionStatus(action, merged);
      if page.Some? && status.Some? then
        var ok := Accepts(db.faults, db.schema, old(db.pages), |old(db.log)|, page.value, SelectType);
        updated == Some(ok) &&
        db.log == old(db.log) + [UpdatePage(page.value, SelectType, status.value)] &&
        db.pages == if ok then SetStatus(old(db.pages), page.value, status.value) else old(db.pages)
      else
        updated.None? && db.log == old(db.log) && db.pages == old(db.pages)
  {
    var page, tried := ResolvePage(branchName, find);
    if page.None? {
      return None;
    }
    var status := PrActionStatus(action, merged);
    if status.None? {
      return None;
    }
    var ok := NotionClient.UpdatePageStatus(db, page.value, status.value);
    updated := Some(ok);
  }

  // ---------------------------------------------------------------------------
  // handlePushEvent

  /** A bulk move: pages in any of `sources` go to `target` */
  datatype Move = Move(sources: seq<string>, target: string)

  /** The push rules, compared case-sensitively: `uat` and `production` each move pages; any other branch does nothing */
  function PushPlan(branch: string): (m: Option<Move>)
    ensures m.Some? <==> branch == "uat" || branch == "production"
    ensures branch == "uat" ==> m == Some(Move([ReadyForUat, InDev, FailedInDev], InUat))
    ensures branch == "production" ==> m == Some(Move([PassedUat], LiveInProd))
    ensures m.Some? ==> m.value.target !in m.value.sources
  {
    if branch == "uat" then Some(Move([ReadyForUat, InDev, FailedInDev], InUat))
    else if branch == "production" then Some(Move([PassedUat], LiveInProd))
    else None
  }

  /**
   * Only pages the status query returned move, only their `Status` changes, and only to
   * the target; every page the move changes had one of the source statuses.
   */
  lemma PushFrame(call: nat, faults: set<nat>, schema: map<string, PropType>, order: seq<PageId>,
                  pages: map<PageId, Page>, m: Move, n: nat, id: PageId)
    requires n <= |NotionClient.StatusQueryResult(call, faults, schema, order, pages, m.sources)|
    requires id in pages
    ensures var after := SetStatusAll(pages, NotionClient.StatusQueryResult(call, faults, schema, order, pages, m.sources)[..n], m.target);
      id in after &&
      (after[id] == pages[id] || (pages[id].status in m.sources && after[id] == pages[id].(status := m.target)))
  {
    var ids := NotionClient.StatusQueryResult(call, faults, schema, order, pages, m.sources);
    var f := NotionClient.StatusFilter(m.sources);
    SetStatusAllFrame(pages, ids[..n], m.target, id);
    if id in ids[..n] {
      var i :| 0 <= i < n && ids[..n][i] == id;
      SelectSound(order, pages, f);
      assert Selected(pages, f, ids[i]);
      NotionClient.StatusFilterMeaning(m.sources, pages[id], schema);
    }
  }

  /** Once a push has moved every page it selected, the same query finds nothing: a repeated push changes nothing */
  lemma PushSettles(branch: string, order: seq<PageId>, pages: map<PageId, Page>)
    requires PushPlan(branch).Some?
    ensures var m := PushPlan(branch).value;
      var f := NotionClient.StatusFilter(m.sources);
      Select(order, SetStatusAll(pages, Select(order, pages, f), m.target), f) == []
  {
    var m := PushPlan(branch).value;
    var f := NotionClient.StatusFilter(m.sources);
    forall id | id in pages
      ensures !Matches(pages[id].(status := m.target), f)
    {
      NotionClient.StatusFilterMeaning(m.sources, pages[id].(status := m.target), map[]);
    }
    MoveEmptiesSelection(order, pages, f, m.target);
  }

  /**
   * `handlePushEvent`: on `uat` or `production`, one status query and then the bulk
   * update of what it returned; on any other branch no request at all.
   */
  method HandlePush(db: Database, ref: string) returns (outcome: Option<BulkOutcome>)
    requires db.Valid()
    modifies db
    ensures db.Valid()
    ensures PushPlan(PushedBranch(ref)).None? ==> outcome.None? && db.log == old(db.log) && db.pages == old(db.pages)
    ensures PushPlan(PushedBranch(ref)).Some? ==>
      var m := PushPlan(PushedBranch(ref)).value;
      var ids := NotionClient.StatusQueryResult(|old(db.log)|, db.faults, db.schema, db.order, old(db.pages), m.sources);
      NoDuplicates(ids) && outcome.Some? &&
      (outcome.value.FailedAt? ==> outcome.value.index < |ids|) &&
      db.pages == SetStatusAll(old(db.pages), ids[..Completed(outcome.value, |ids|)], m.target) &&
      db.log == old(db.log) + [QueryDatabase(NotionClient.StatusFilter(m.sources))] +
                UpdateRequests(ids[..Attempted(outcome.value, |ids|)], SelectType, m.target)
    ensures forall id :: id in db.pages <==> id in old(db.pages)
    ensures forall id :: id in old(db.pages) ==>
      db.pages[id] == old(db.pages)[id] ||
      (PushPlan(PushedBranch(ref)).Some? && old(db.pages)[id].status in PushPlan(PushedBranch(ref)).value.sources &&
       db.pages[id] == old(db.pages)[id].(status := PushPlan(PushedBranch(ref)).value.target))
  {
    var branch := PushedBranch(ref);
    var plan := PushPlan(branch);
    if plan.None? {
      return None;
    }
    ghost var before := db.pages;
    ghost var call := |db.log|;
    var ids := NotionClient.FindPagesByStatus(db, plan.value.sources);
    NotionClient.StatusQueryNoDuplicates(call, db.faults, db.schema, db.order, before, plan.value.sources);
    var result := NotionClient.UpdateMultiplePagesStatus(db, ids, plan.value.target);
    outcome := Some(result);
    forall id | id in before
      ensures id in db.pages
      ensures db.pages[id] == before[id] ||
        (before[id].status in plan.value.sources && db.pages[id] == before[id].(status := plan.value.target))
    {
      PushFrame(call, db.faults, db.schema, db.order, before, plan.value, Completed(result, |ids|), id);
    }
    forall id | id in db.pages
      ensures id in before
    {
      SetStatusAllFrame(before, ids[..Completed(result, |ids|)], plan.value.target, id);
    }
  }
}
