# Notion ticket sync: a verified model

This project models the core of a small ticket-sync engine. The engine runs as GitHub
workflow scripts against a Notion database. From a pull-request or push event it
derives a task identifier from the branch name and decides which status the event
implies. It then looks up the matching Notion pages and sets their `Status`.

There are two workflow variants:

- The root scripts `scripts/update-notion.js` and `scripts/notion-client.js`.
  - A task id comes from one of ten approved prefixes. The script tries the full id, then the numeric id, then the last `-` part.
  - `Status` is a `select` property.
  - Pushes to `uat` and `production` move pages in bulk.
- The notion-sync scripts under `scripts/notion-sync/`.
  - A task number comes from one of six prefixes. It is the digit run that starts right after the `/`, or right after one leading `letters-` key.
  - The lookup goes by the `unique_id` property `Task ID`, with schema guards.
  - `Status` is a `status` property.
  - Pull requests are tracked only into `dev`, `development` or `main`.
  - The UAT script moves tickets whose assignees match the PR assignees to `In UAT` when a PR into `uat` is merged.

The modules follow the scripts:

| module | file | models |
|---|---|---|
| `Text`, `Seqs`, `Wrappers` | text.dfy, seqs.dfy, wrappers.dfy | the JavaScript string operations the scripts use (`toLowerCase`, `parseInt`, `includes`, `split`, `pop`, `replace`, regex character classes) and sequence helpers |
| `BranchPrefix` | branch_prefix.dfy | the anchored, case-insensitive `^(?:p1\|p2\|…)\/` both extractors begin with |
| `Store` | store.dfy | the Notion database as a class: pages, schema, users, the request log, faults, and the assumed query semantics |
| `Lifecycle` | lifecycle.dfy | the status names, the pull-request action switch, and `ref.replace('refs/heads/', '')` |
| `NotionClient` | notion_client.dfy | scripts/notion-client.js |
| `SyncNotionClient` | sync_notion_client.dfy | scripts/notion-sync/notion-client.js |
| `UpdateNotion` | update_notion.dfy | scripts/update-notion.js |
| `SyncUpdateNotion` | sync_update_notion.dfy | scripts/notion-sync/update-notion.js |
| `UpdateNotionUat` | update_notion_uat.dfy | scripts/notion-sync/update-notion-uat.js |

In outline:

- **The remote service.** `Store.Database` is a class.
  - Its `pages` map changes in place when an update succeeds.
  - Every request is appended to its `log`.
  - `faults` is a set of request numbers. The request numbered `|log|` throws exactly when that number is in `faults`. This stands for network and API errors.
  - A query also throws when its filter names a property the schema lacks, or one of another type. This is how Notion rejects a filter.
  - A query returns the matching pages in the database's `order`.
  - An empty `or` matches no page. An empty `and` matches every page.
- **Client calls.** Each client call is a method on the database. Its contract gives the requests it issues and its result, as functions of the state before the call.
- **Handlers.** Each event handler is a method. Its contract gives the whole new state. Lemmas beside it state what the source promises: the frame, idempotence and the first-match rules.
- **Regular expressions.** The branch-name regular expressions are not modelled by a regex engine. Each pattern is written as the search the engine performs on that pattern:
  - the prefix alternation;
  - the greedy `.*` that gives characters back one by one;
  - the optional `[A-Z]+-` group.

  The scans are then proved equal to plain reference descriptions, such as "the trailing digit run" and "the last digit".
- **Root lookup.** `scripts/notion-client.js` defines no `findPageByTaskId`, which the root pull-request handler calls three times. The root handler therefore takes its lookup as a parameter, `find: TaskKey -> Option<PageId>`, and those lookups are not logged as requests.

Two behaviours of the code are worth stating outright:

- **Bulk updates stop at the first failure.** `updatePageStatus` rethrows, so the `for…of` loop over the pages stops at the first failed update. `UpdateMultiplePagesStatus` ends there, and `BulkOutcome.FailedAt(i)` records where.
- **The numeric extractors differ.**
  - The root number extractor returns the trailing digit run only when the remainder is all digits or ends in `-` and digits. Otherwise it returns the remainder's last single digit.
  - The notion-sync extractor reads a digit run that starts either right after the `/` or right after one leading `letters-` key. Digits further on are not found.

## Model

| member | source | states |
|---|---|---|
| Text.LastSplitIsTail | scripts/update-notion.js:73 | `split('-').pop()` is the suffix of the id after its last `-`. It contains no `-`, and the whole id when there is no `-` |
| Text.LastSplitShorter | scripts/update-notion.js:72-73 | when the id `includes('-')`, the popped last part is strictly shorter than the id |
| Text.ContainsChar | scripts/update-notion.js:72 | `includes` of a one-character string finds that character at some index |
| Text.SplitKeepsOneLine | scripts/update-notion.js:131-133 | if each `-`-separated part is free of line terminators, so is the whole string. Hence the key-shaped patterns only match what `(.+)$` matches |
| Text.LeadingDigitsBefore | scripts/notion-sync/update-notion.js:111 | `\d+` on digits followed by a non-digit takes exactly those digits |
| Text.LeadingLettersBefore | scripts/notion-sync/update-notion.js:111 | greedy `[A-Z]+` under `i` on letters followed by a non-letter takes exactly those letters |
| BranchPrefix.MatchPrefixIsApprovedRemainder | scripts/update-notion.js:131-137 | trying the alternation `^(?:…)\/` under `i` alternative by alternative is the same as checking that the segment before the first `/`, lower-cased, is an approved prefix. The result is the text after that `/` |
| BranchPrefix.RemainderAfterPrefix | scripts/notion-sync/update-notion.js:107-111 | an approved prefix in any letter case followed by `/` leaves exactly the rest of the branch name |
| BranchPrefix.UnapprovedSegmentRejected | scripts/notion-sync/update-notion.js:107-119 | a leading segment (no `/`) that is no approved prefix in any case makes the prefix match fail |
| Store.SelectSound | scripts/notion-client.js:64-72 | `response.results` lists pages in database order, as a subsequence of it, and every page listed matches the filter |
| Store.SelectComplete | scripts/notion-client.js:64-72 | every page of the database that matches the filter is in `response.results` |
| Store.FirstSelected | scripts/notion-client.js:24 | `response.results[0]` is the first matching page in database order. It is absent exactly when no page matches |
| Store.SelectNarrowing | scripts/notion-sync/notion-client.js:106-124 | a filter that implies another selects an order-preserving subsequence of what the other selects |
| Store.SelectNoDuplicates | scripts/notion-client.js:64-72 | when the database order has no repeats, `response.results` has none either, so each page is listed once |
| Store.SetStatusAllFrame | scripts/notion-client.js:97-102 | a run of status updates adds and removes no page. An unlisted page keeps every property, and a listed page changes only its `Status` |
| Store.MoveEmptiesSelection | scripts/update-notion.js:112-119 | once every page a filter selects is moved to a status the filter rejects, the same query finds nothing |
| Store.AcceptsAfterBulk | scripts/notion-client.js:99-101 | whether one update of the loop succeeds does not depend on the statuses the earlier updates set |
| Store.Database.DatabasesRetrieve | scripts/notion-sync/notion-client.js:12-14 | `databases.retrieve` issues one request and returns the schema, or nothing when it throws |
| Store.Database.DatabasesQuery | scripts/notion-sync/notion-client.js:38-41 | `databases.query` issues one request. It returns the matching pages in order, or nothing when it throws or the filter does not fit the schema |
| Store.Database.UsersList | scripts/notion-sync/notion-client.js:94 | `users.list` issues one request, and returns the user directory or nothing when it throws |
| Store.Database.PagesUpdate | scripts/notion-sync/notion-client.js:53-58 | `pages.update` issues one request. It succeeds exactly when the call does not throw, the page exists and `Status` has the payload's type; then only that page's `Status` changes |
| Lifecycle.PrActionStatus | scripts/update-notion.js:89-103 | `opened` goes to `In Progress`, `review_requested` to `In Code Review`, and `closed` with `merged` to `In Dev`, each as an if-and-only-if. An unmerged close or any other action sets no status |
| Lifecycle.PushedBranch | scripts/update-notion.js:108 | `ref.replace('refs/heads/', '')`, which removes the first `refs/heads/` only. Its meaning on a branch ref is stated by `Lifecycle.PushedBranchOfHead` |
| Lifecycle.PushedBranchOfHead | scripts/update-notion.js:108 | removing `refs/heads/` from `refs/heads/<branch>` gives `<branch>` |
| NotionClient.StatusFilterMeaning | scripts/notion-client.js:55-69 | the filter is an `or` with exactly one `select equals` clause per status, in input order. It matches a page exactly when its status is listed. Notion accepts it exactly when `Status` is a `select` (or the list is empty) |
| NotionClient.FindPageByBranchName | scripts/notion-client.js:9-30 | one `rich_text equals` query on `Branch Name`. The result is the first matching page, or none when there is none or the query throws |
| NotionClient.FindPageByTicketId | scripts/notion-client.js:32-53 | one `rich_text equals` query on `Ticket ID`. The result is the first matching page, or none when there is none or the query throws |
| NotionClient.FindPagesByStatus | scripts/notion-client.js:55-78 | one query with the `select` OR filter. The result is the matching pages in order, or `[]` when the query throws |
| NotionClient.StatusQueryNoDuplicates | scripts/notion-client.js:55-78 | on a database without repeated pages, `findPagesByStatus` lists each page at most once, so the bulk loop updates each page at most once |
| NotionClient.UpdatePageStatus | scripts/notion-client.js:80-95 | one `pages.update` of the `Status` select. On failure nothing changes and the error is reported to the caller |
| NotionClient.UpdateMultiplePagesStatus | scripts/notion-client.js:97-102 | one update per page in list order, and none for an empty list. The first failure ends the loop: exactly the earlier pages are updated, all of them accepted, and the failing update is the last request |
| SyncNotionClient.StatusFilterMeaning | scripts/notion-sync/notion-client.js:66-76 | the filter is an `or` with exactly one `status equals` clause per status, in input order. It matches exactly the pages with a listed status. Notion accepts it exactly when `Status` is a `status` property (or the list is empty) |
| SyncNotionClient.TaskLookupResult | scripts/notion-sync/notion-client.js:9-49 | what `findPageByTaskId` returns, guard by guard: the retrieve, the `Task ID` property and its `unique_id` type, the `NaN` check, then the query and its `results[0]`, or `null` when there is none, with every throw caught as `null`. Its meaning is stated by `SyncNotionClient.TaskLookupMeaning` |
| SyncNotionClient.TaskLookupMeaning | scripts/notion-sync/notion-client.js:9-49 | there is no page when `databases.retrieve` throws, `Task ID` is absent or not `unique_id`, the id parses to NaN, or the query throws. A page found has that `Task ID` and is the first such page. When no call throws, the guards pass and some page has that `Task ID`, a page is found |
| SyncNotionClient.FindPageByTaskId | scripts/notion-sync/notion-client.js:9-49 | it retrieves the schema and queries only when the guards pass; its answer is the lookup result above |
| SyncNotionClient.FindPagesByStatus | scripts/notion-sync/notion-client.js:66-84 | one query with the `status` OR filter. The result is the matching pages in order, or `[]` when the query throws |
| SyncNotionClient.StatusQueryNoDuplicates | scripts/notion-sync/notion-client.js:66-84 | on a database without repeated pages, `findPagesByStatus` lists each page at most once |
| SyncNotionClient.FindUser | scripts/notion-sync/notion-client.js:94-97 | `users.results.find` returns the first `person` user whose email equals the given one, ignoring case. It returns nothing exactly when no user qualifies |
| SyncNotionClient.AssigneeFilterMeaning | scripts/notion-sync/notion-client.js:106-119 | the `and` filter matches a page exactly when its status is listed and the user is among its `Assignee` people |
| SyncNotionClient.AssigneeNarrowsStatusQuery | scripts/notion-sync/notion-client.js:104-127 | the narrowed query's results are an order-preserving subsequence of the status-only results |
| SyncNotionClient.FindPagesByStatusAndAssignee | scripts/notion-sync/notion-client.js:86-132 | it falls back to `findPagesByStatus` when the email is missing or empty, `users.list` throws, no person has that email, or the narrowed query throws. Otherwise it returns the narrowed results. The requests issued are given in each case, and the result is always a subsequence of the status-only selection |
| SyncNotionClient.UpdatePageStatus | scripts/notion-sync/notion-client.js:51-64 | one `pages.update` of the `Status` status. On failure nothing changes and the error is reported to the caller |
| SyncNotionClient.UpdateMultiplePagesStatus | scripts/notion-sync/notion-client.js:134-139 | one update per page in list order, and none for an empty list. The first failure ends the loop: exactly the earlier pages are updated, all accepted, and the failing update is the last request |
| UpdateNotion.ExtractTaskId | scripts/update-notion.js:123-147 | `extractTaskIdFromBranch`: the prefix match, then the four patterns in order, the first truthy capture winning, else `null`. Its closed form is stated by `UpdateNotion.ExtractTaskIdIsRemainder` |
| UpdateNotion.SpecificPatternsImplyAny | scripts/update-notion.js:129-146 | each of the three specific patterns matches only remainders that `(.+)$` also matches, and all four capture the whole remainder. So the result is the remainder exactly when it is non-empty and one line |
| UpdateNotion.ExtractTaskIdIsRemainder | scripts/update-notion.js:123-147 | `extractTaskIdFromBranch` returns exactly the non-empty one-line text after an approved prefix and `/`, and `null` otherwise |
| UpdateNotion.ExtractTaskIdAfterPrefix | scripts/update-notion.js:131-143 | any spelling of an approved prefix, `/` and a non-empty one-line remainder give that remainder |
| UpdateNotion.DashThenDigits | scripts/update-notion.js:156 | the backtracking search of `(?:.*-)?(\d+)$`: a capture is always all digits. Which capture it finds is stated by `UpdateNotion.DashScan` and `UpdateNotion.TrailingRunCases` |
| UpdateNotion.DashScan | scripts/update-notion.js:156 | the backtracking search of `(?:.*-)?(\d+)$` meets the `-` just before the trailing digits if it is within reach. Failing that, it matches only when the whole remainder is digits |
| UpdateNotion.TrailingRunCases | scripts/update-notion.js:156 | on a one-line remainder the first pattern captures the trailing digit run exactly when the remainder is all digits or ends in `-` and digits, and fails otherwise |
| UpdateNotion.TrailingRunScan | scripts/update-notion.js:156 | the backtracking scan over the whole of a remainder without line terminators captures the trailing run exactly when the remainder is all digits or ends in `-` and digits |
| UpdateNotion.GreedyThenDigits | scripts/update-notion.js:157 | the backtracking search of the greedy `(?:.*)?(\d+)`: a capture is always all digits. That it is the last digit alone is stated by `UpdateNotion.GreedyScan` |
| UpdateNotion.GreedyScan | scripts/update-notion.js:157 | the greedy `.*` of `(?:.*)?(\d+)` backs off to the last digit and `\d+` captures that one digit. There is no match when the remainder has no digit |
| UpdateNotion.GreedyDigitScan | scripts/update-notion.js:157 | on a one-line remainder the second pattern captures exactly the last digit, or fails when there is none |
| UpdateNotion.ExtractTaskNumber | scripts/update-notion.js:149-167 | `extractTaskIdNumberFromBranch`: the prefix match, then the first pattern, else the second, with `parseInt` of the capture, else `null`. Its closed form is stated by `UpdateNotion.ExtractTaskNumberCases` |
| UpdateNotion.RemainderNumberCases | scripts/update-notion.js:155-166 | the number is the trailing digit run's value when the remainder is all digits or ends in `-` and digits. Otherwise it is the last single digit, and `null` when there is no digit |
| UpdateNotion.ExtractTaskNumberCases | scripts/update-notion.js:149-167 | the same case split for any spelling of an approved prefix, `/` and a one-line remainder |
| UpdateNotion.UnapprovedBranchRejected | scripts/update-notion.js:123-167 | both extractors return `null` when the segment before the first `/` is no approved prefix in any case |
| UpdateNotion.ExampleKeyCodeNumberId | scripts/update-notion.js:125 | `feature/TES-76S-2` gives the full id `TES-76S-2` |
| UpdateNotion.ExampleKeyCodeNumber | scripts/update-notion.js:151 | `feature/TES-76S-2` gives 2 |
| UpdateNotion.ExampleKeyNumber | scripts/update-notion.js:152 | `feature/GEN-5694` gives 5694 |
| UpdateNotion.ExampleNumber | scripts/update-notion.js:153 | `feature/123` gives 123 |
| UpdateNotion.ExampleLastSingleDigit | scripts/update-notion.js:157 | `Feature/TES-76S` gives 6, the last single digit, and not 76 |
| UpdateNotion.ExampleUnapproved | scripts/update-notion.js:131-137 | `wip/42` gives `null` from both extractors |
| UpdateNotion.FirstFoundMeaning | scripts/update-notion.js:58-78 | the page found is the answer to the earliest key whose lookup finds a page, every earlier lookup having missed. There is none exactly when every lookup misses |
| UpdateNotion.ProbedMeaning | scripts/update-notion.js:58-78 | the keys tried are a prefix of the candidates. All but the last miss, the last finds the page when one is found, and every candidate is tried when none is |
| UpdateNotion.FirstFoundAppend | scripts/update-notion.js:58-78 | a later step is consulted only when the earlier steps found nothing |
| UpdateNotion.ProbedAppend | scripts/update-notion.js:58-78 | a later step's keys are tried only when the earlier steps found nothing |
| UpdateNotion.LookupStep | scripts/update-notion.js:66-78 | one `if (!page)` step: its key is looked up, and becomes the page, only when no earlier step found a page |
| UpdateNotion.ResolvePage | scripts/update-notion.js:50-78 | the chain's `page` and the keys it looks up. The keys are the full id, then the numeric id unless it is `null` or 0, then the last `-` part when that is all digits, stopping at the first hit |
| UpdateNotion.ThirdStepRepeatsNumber | scripts/update-notion.js:71-77 | whenever the third step runs, its number is exactly the numeric id of step two. |
| UpdateNotion.LastPartNumber | scripts/update-notion.js:72-76 | a one-line remainder whose last `-` part is all digits has that part's value as its number |
| UpdateNotion.NumberAfterDash | scripts/update-notion.js:156 | digits after a `-` up to the end of a one-line remainder are its number |
| UpdateNotion.HandlePullRequest | scripts/update-notion.js:43-104 | when the chain finds no page, or the action sets no status, no request is issued and nothing changes. Otherwise exactly one `Status` select update of that page is issued, and the page changes only if it succeeds. The base branch is never checked |
| UpdateNotion.PushPlan | scripts/update-notion.js:112-120 | only `uat` and `production`, compared case-sensitively, move pages: {Ready for UAT, In Dev, Failed in Dev} to `In UAT` and {Passed UAT} to `Live in Prod`. The target is never a source |
| UpdateNotion.PushFrame | scripts/update-notion.js:112-120 | a push changes a page only by setting its `Status` to the target, and only a page whose status was a source |
| UpdateNotion.PushSettles | scripts/update-notion.js:112-120 | after a push has moved every page it selected, the same query selects nothing, so a repeated push changes nothing |
| UpdateNotion.HandlePush | scripts/update-notion.js:106-121 | any other branch issues no request. `uat` and `production` give one status query, then the bulk update of its results, which hold no page twice, with the loop's partial-failure outcome. No page appears or disappears, and a changed page had a source status and now has the target |
| SyncUpdateNotion.IsTracked | scripts/notion-sync/update-notion.js:47-52 | `trackedBranches.includes(branch.toLowerCase())` over `dev`, `development`, `main`. It gates `SyncUpdateNotion.HandlePullRequest` and is the classification `SyncUpdateNotion.HandlePush` returns |
| SyncUpdateNotion.KeyThenDigits | scripts/notion-sync/update-notion.js:111 | the search of `(?:[A-Z]+-)?(\d+)` after the prefix: a capture is always all digits. Where the capture starts is stated by `SyncUpdateNotion.KeyThenDigitsMeaning` |
| SyncUpdateNotion.KeyThenDigitsMeaning | scripts/notion-sync/update-notion.js:111 | the capture of `(?:[A-Z]+-)?(\d+)` is a digit run that starts right after a leading `letters-` key or at the very start. There is none exactly when neither position starts a digit |
| SyncUpdateNotion.SyncExtractTaskNumber | scripts/notion-sync/update-notion.js:105-120 | `extractTaskIdNumberFromBranch`: the six-prefix match, then `parseInt` of the key-then-digits capture, else `null`. Its meaning is stated by `SyncUpdateNotion.SyncNumberAfterPrefix`, `SyncUpdateNotion.SyncUnapprovedRejected` and `SyncUpdateNotion.NoDigitsNoNumber` |
| SyncUpdateNotion.SyncUnapprovedRejected | scripts/notion-sync/update-notion.js:107-119 | a leading segment that is none of the six prefixes, in any case, gives `null` |
| SyncUpdateNotion.NoDigitsNoNumber | scripts/notion-sync/update-notion.js:111-119 | a branch name with no digit gives `null` |
| SyncUpdateNotion.SyncNumberAfterPrefix | scripts/notion-sync/update-notion.js:107-116 | after an approved prefix in any case and `/`, the number is read from the remainder alone |
| SyncUpdateNotion.KeyThenDigitsOf | scripts/notion-sync/update-notion.js:110-111 | `letters-`, digits, then text not starting with a digit gives those digits |
| SyncUpdateNotion.KeyWithoutDigits | scripts/notion-sync/update-notion.js:111 | `letters-` followed by a non-digit gives no capture |
| SyncUpdateNotion.ExampleKeyNumberDescription | scripts/notion-sync/update-notion.js:110 | `feature/GEN-5694-login` gives 5694 |
| SyncUpdateNotion.ExampleFirstRun | scripts/notion-sync/update-notion.js:111 | `feature/TES-76S-2` gives 76, the digit run right after the `TES-` key |
| SyncUpdateNotion.ExampleNoRunAfterKey | scripts/notion-sync/update-notion.js:111 | `feature/abc-def-12` gives `null` |
| SyncUpdateNotion.HandlePullRequest | scripts/notion-sync/update-notion.js:39-88 | an untracked base branch (by lower case) or a `null` or 0 number ends the handler before any request. Otherwise the guarded lookup runs, and a found page with a status-setting action gets exactly one `Status` update. At most one update is issued |
| SyncUpdateNotion.HandlePush | scripts/notion-sync/update-notion.js:90-103 | a push only tells a direct push to a tracked branch from any other. It issues no request and changes no page on any branch |
| UpdateNotionUat.UatGate | scripts/notion-sync/update-notion-uat.js:10-21 | the two early returns: the event must be `pull_request` and the base branch, lower-cased, `uat`. `UpdateNotionUat.Run` issues no request when it fails |
| UpdateNotionUat.AssigneeKey | scripts/notion-sync/update-notion-uat.js:24-26 | the key is the lower-cased `login` if truthy, else the lower-cased `name` if truthy, else `''` |
| UpdateNotionUat.PrKeys | scripts/notion-sync/update-notion-uat.js:24-26 | the PR assignee keys: none when `assignees` is missing, otherwise one `UpdateNotionUat.AssigneeKey` (truthy `login`, else `name`, else `''`, lower-cased) per assignee, in order. `UpdateNotionUat.NoAssigneesNoTickets` states the empty case |
| UpdateNotionUat.KeepTicket | scripts/notion-sync/update-notion-uat.js:39-47 | the filter's test: some Notion assignee's lower-cased name is an allowed name and overlaps some PR key by `includes` either way. `UpdateNotionUat.KeepTickets` states that exactly the passing tickets are kept |
| UpdateNotionUat.KeepTickets | scripts/notion-sync/update-notion-uat.js:39-47 | the kept tickets are an order-preserving subsequence of those found. A found ticket is kept exactly when some lower-cased assignee name is allowed and overlaps (either contains the other) some PR key |
| UpdateNotionUat.EmptyKeyMatchesAllowed | scripts/notion-sync/update-notion-uat.js:24-45 | a PR assignee with neither login nor name gives `''`, which every allowed Notion name contains |
| UpdateNotionUat.NoAssigneesNoTickets | scripts/notion-sync/update-notion-uat.js:24-47 | with no PR assignees (missing or empty list) no ticket is kept |
| UpdateNotionUat.KeptHaveCandidateStatus | scripts/notion-sync/update-notion-uat.js:33-47 | every kept ticket has status In Dev, Failed in Dev or Ready for UAT |
| UpdateNotionUat.Run | scripts/notion-sync/update-notion-uat.js:10-58 | no request is issued unless the event is `pull_request` and the base branch, lower-cased, is `uat`. Otherwise there is one candidate-status query and then the filter. Only `closed` with `merged` moves the kept tickets, none of them twice, to `In UAT`, with the loop's partial-failure outcome. A changed ticket had a candidate status and passed the filter |

## Left out

- The `main()` functions are not modelled: environment variables, the checks for missing credentials, `fs.readFileSync`, `JSON.parse` of the event file, the `switch` on the event name and `process.exit`. This is process plumbing and I/O. A handler result of `Some(false)` or `FailedAt` stands for the rethrown error that ends the script.
- `console.log` and `console.error` output is not modelled, and neither is `inspectDatabaseSchema`, which only logs the schema.
- scripts/notion-client.js defines neither `inspectDatabaseSchema` nor `findPageByTaskId`, yet scripts/update-notion.js calls both on it. As written, the call on line 17 would throw before any handler runs. The model leaves that call out and gives the root pull-request handler its lookup as the parameter `find`. The `findPageByTaskId` implementation is not part of this model, so those lookups are not logged as database requests.
- The `@notionhq/client` SDK is not modelled: HTTP, authentication, rate limits and pagination. Only the first page of results is ever read, and a query is modelled as returning all matches. The SDK's behaviour is replaced by the `Store.Database` class and its assumed filter semantics.
- `async`/`await` is modelled as plain sequential calls, because every call is awaited in turn. There is no concurrency.
- There is no general regular-expression engine. Only the specific patterns are written out.
- `parseInt` is modelled only on what the patterns capture: strings that start with a digit. It is also modelled on `Task ID` keys, as the value of the leading digits. Leading white space, signs, radix prefixes and values above 2^53 are not modelled.
- `toLowerCase` is modelled for ASCII letters only. Other characters are kept as they are, which matches how case-insensitive matching without the `u` flag treats them. Unicode case mapping of non-ASCII letters in e-mails, names and branch names is not modelled.
- Whether a status name is a valid option of the `Status` property is not modelled. An update fails only through `faults`, a missing page, or a `Status` property of another type.
- UpdateNotion.ExtractTaskNumberCases: stated only for remainders without line terminators. On several lines the backtracking scans `DashThenDigits` and `GreedyThenDigits` still define the result, but no closed form is proved for it.
- UpdateNotion.RemainderNumberCases: stated only for one-line remainders, for the same reason.
