# Meeting minutes to Jira issues — a Dafny model

`app.py` is a small Flask service. Its `/process` handler takes a meeting
transcript and a Jira project name, and does the following:

1. It asks a chat-completion service for minutes of meeting (`generate_mom`).
2. It pulls `(description, assignee)` pairs out of the minutes with a regular
   expression (`extract_relevant_points`).
3. It looks up the project key once (`get_project_key_by_name`).
4. For each pair in order, it looks up the assignee's account id
   (`get_account_id_by_name`) and creates a "Task" issue (`create_jira_issue`).

The first step that raises an exception ends the handler. The reply is then
the exception's message with status 500. Otherwise the reply holds the minutes
and the created issues.

This project models that core and proves properties of it.

- `results.dfy` holds `Option` and `Result`. An `Err` carries the text of the
  exception the Python code raises.
- `text.dfy` holds the character classes of the pattern (`\d`, `\s`, `\w`, `.`),
  runs of such characters, literal matching, and `str.lower`.
- `regex.dfy` is a backtracking engine for patterns made of literals and
  greedy or lazy quantified classes, which is the shape of the pattern in
  `extract_relevant_points`.
  - `MatchAt` follows `re`'s search order.
  - `IsFirstMatch` states declaratively which match `re` reports: among all
    the ways the pattern matches, the one the engine tries first.
  - `MatchAtCorrect` proves that `MatchAt` reports exactly that match.
  - `FindAll` is `findall`: it scans left to right, resumes at the end of
    each match, and never reports an empty match.
- `action_items.dfy` holds the concrete pattern, the extraction of group 1
  and group 2, and what every extracted item looks like.
- `identity.dfy` holds the project lookup, as a loop over the search results
  proved against a recursive specification, and the account lookup.
- `issues.dfy` holds the issue request body and the rule that decides whether
  Jira's answer is success.
- `completion.dfy` holds the minutes request and the checks on the key and on
  the service's answer.
- `pipeline.dfy` holds `process`.
  - The outside services are a `Services` value: the key, the chat answer,
    the project list, the user search as a function of the query, and
    Jira's answer as a function of the item's position and the request body.
  - `Process` returns the reply together with the sequence of requests it
    made, so the order of the calls can be stated and proved.

Where the code and the prose design disagree, the model follows the code:

- **Accepted statuses.** Issue creation succeeds only on status 200 or 201,
  not on any 2xx (`Issues.AcceptResponse`).
- **Empty descriptions.** An item's description may be empty: the lazy
  group `(.*?)` can match nothing. The design says descriptions are
  non-empty.
- **Lookup status codes.** The project and user lookups never look at the
  HTTP status. They only look at the body.
- **Lookup with no items.** The project lookup is made even when no item was
  extracted. So "no items" ends in an error reply when the project does not
  exist, not in an empty issue list (`Pipeline.ProjectSearchedOnce`,
  `Pipeline.EarlyFailures`).

## Model

| member | source | states |
|---|---|---|
| Regex.MatchAtCorrect | app.py:52-55 | `MatchAt` at a position reports the match `re` finds first: it matches, and it is tried before every other match. If it reports nothing, no way to match at that position exists. |
| Regex.FindAll | app.py:56 | Every match `findall` reports is the engine's match at its own start. Each match starts at or after the scan position and is non-empty. |
| Regex.FindAllInOrder | app.py:56 | The reported matches do not overlap and come in document order. |
| Regex.FindAllSkipsNothing | app.py:56 | No match starts at a position `findall` skipped: not before the first reported match, not between two of them, not after the last. |
| Regex.FindAllEmpty | app.py:56 | `findall` reports nothing exactly when the pattern matches at no position of the text (both directions). |
| Regex.GreedyTakesAll | app.py:53 | In the reported match, if a greedy atom could have taken one more character, the atom after it could not have matched from there. |
| Regex.LazyTakesLeast | app.py:53 | In the reported match, if a lazy atom could have stopped one character earlier, the atom after it could not have matched from there. |
| ActionItems.ExtractRelevantPoints | app.py:51-56 | Gives one item per `findall` match, in order. Every item is well formed: the description stays on one line with no whitespace at either end, and the assignee is a non-empty run of word characters. |
| ActionItems.ItemsWellFormed | app.py:53 | The pair taken from each reported match is well formed. |
| ActionItems.NothingExtracted | app.py:51-56 | No item is extracted exactly when no fragment of the minutes fits the pattern (both directions). |
| ActionItems.AssigneeIsWord | app.py:53 | Group 2 is a non-empty run of word characters. The character after the match is not a word character, so `\w+` took the whole name. |
| ActionItems.AssigneeIsWordIn | app.py:53 | The same, for any pattern with this pattern's atoms around group 2. |
| ActionItems.DescriptionIsTrimmed | app.py:53 | Group 1 holds no newline. The `\s+` before it took all leading whitespace, and the lazy group left all trailing whitespace to the `\s*` after it. |
| ActionItems.DescriptionIsTrimmedIn | app.py:53 | The same, for any pattern with this pattern's atoms around group 1. |
| Identity.ProjectKey | app.py:67-71 | The only error the project lookup gives is "Project not found". |
| Identity.ProjectKeyIsFirst | app.py:67-69 | The lookup answers the key of the first project whose name equals the wanted name after lower-casing both. |
| Identity.ProjectKeyNotFound | app.py:67-71 | The lookup fails exactly when no project's name matches (both directions). |
| Identity.GetProjectKeyByName | app.py:59-71 | The loop over the search results returns what the specification `ProjectKey` gives: the first match's key, or "Project not found". |
| Identity.ProjectKeyIgnoresCase | app.py:68 | Two wanted names that are equal after lower-casing get the same answer from the lookup. |
| Identity.ProjectNameIgnoresCase | app.py:68 | "APOLLO" finds the project named "Apollo" after a project that does not match. |
| Identity.AccountIdFor | app.py:82-85 | The lookup fails exactly when the user search found nobody, with "User not found: " and the name. Otherwise it gives the first user's account id. |
| Issues.BuildPayload | app.py:93-101 | The request body carries the issue data unchanged, with issue type "Task". |
| Issues.AcceptResponse | app.py:105-108 | Success exactly on an accepted status (`Accepted`: 200 or 201), with the answer's body. Any other status gives "Jira API Error: " and the body. |
| Completion.RequestFor | app.py:29-40 | The minutes request names the model "gpt-3.5-turbo", gives the fixed instruction, and sends the meeting text unchanged. |
| Completion.GenerateMom | app.py:20-48 | An unset or empty key fails with the key message. A status other than 200 fails with "AI API Error: " and the body. Otherwise the result is the answer's content. |
| Pipeline.ReplyStatus | app.py:154-160 | The handler replies with status 200 exactly when it carries the minutes and the created issues, and with 500 exactly when it carries an error. |
| Pipeline.FirstFailure | app.py:141-152 | Every item before the returned position goes through, and the item at that position, if any, fails. |
| Pipeline.ProcessItems | app.py:139-157 | The item loop gives the reply and requests of the specification `ItemsReply`: each item's user search, then its issue request, stopping at the first failure. |
| Pipeline.Process | app.py:135-160 | The handler gives the reply and the requests of the specification `Expected`. |
| Pipeline.ItemOutcomeOk | app.py:142-152 | An item's steps succeed exactly when its assignee is found and Jira accepts its issue. Then its record is Jira's answer body, and its requests are the user search followed by the issue request. |
| Pipeline.ItemRequestsOnly | app.py:141-151 | Every request the item steps make is a user search, or an issue request for the looked-up project, of type "Task", with summary "Action Item: " and the description. |
| Pipeline.SucceedingCalls | app.py:141-152 | While items succeed, item j's user search and issue request are requests 2j and 2j+1 of the loop. |
| Pipeline.ItemsReplyRequests | app.py:141-157 | The loop's requests, however it ends, are all item requests of that form. |
| Pipeline.EachOutcomeOk | app.py:142-152 | Each item's outcome is success exactly when the item succeeds. |
| Pipeline.ItemsReplyCreatedOnlyIf | app.py:141-157 | The loop replies with the created issues only when every item succeeded. |
| Pipeline.ItemsReplyCreated | app.py:139-157 | When every item succeeds, the loop gives one record per item, in order, each the body of Jira's answer to that item's request. The loop makes exactly two requests per item, in order. |
| Pipeline.ItemsReplyFailedAt | app.py:141-160 | When the loop fails, the failing item is the first one that fails. The loop's error is that item's message. |
| Pipeline.ItemsReplyFailed | app.py:141-160 | When the loop fails at some item f, its error is item f's message, and the loop's requests are exactly these: requests 2j and 2j+1 are the user search and issue request of item j, for j < f, and each of those items went through. Then comes item f's user search, then its issue request if the user was found. Nothing follows. |
| Pipeline.ExpectedOnceKnown | app.py:135-157 | Once the minutes and the key are in hand, the handler's requests are the minutes request, the project search, and then the loop's requests. |
| Pipeline.KeyUnsetMakesNoRequest | app.py:20-22 | Without a key the handler fails with the key message and makes no request at all. |
| Pipeline.ProjectSearchedOnce | app.py:135-141 | Whenever the minutes are produced, the project search is made exactly once, right after the minutes request, and before any item's request, even when no item was extracted. It is not made when producing the minutes failed. |
| Pipeline.IssuesShareProjectKey | app.py:144-151 | Every issue request the handler makes is for the looked-up project, of type "Task", with summary "Action Item: " and the description. |
| Pipeline.CreatedOnlyIfEveryItemSucceeds | app.py:141-157 | A successful reply means every extracted item's assignee was found and every issue was accepted. |
| Pipeline.CreatedInOrder | app.py:139-157 | When every item succeeds, the reply is the minutes plus one record per item, in order. Item k's user search and issue request are requests n+2k and n+2k+1, right after the project search. |
| Pipeline.FailsAtFirstFailingItem | app.py:141-160 | When the minutes and the key are in hand and the reply is an error, it is the message of the first failing item f: "User not found: <name>" or "Jira API Error: <body>". The handler's requests are the minutes request, the project search, then the two requests of each item before f, which all went through, in order. Then come item f's user search and, if the user was found, its issue request. Nothing follows. |
| Pipeline.EarlyFailures | app.py:135-160 | An error answer from the chat service fails with "AI API Error: " after only the minutes request. A missing project fails with "Project not found" right after the project search. |

## Left out

- HTTP is not modelled: requests, headers, bearer and basic authentication, and URL building, including the unencoded query in the user-search URL. What each service answers is a parameter (`Pipeline.Services`).
- Pipeline.Services: every request gets an answer. The model has no way to express a request that raises instead of answering, such as `requests.exceptions.ConnectionError` or `Timeout` at app.py:42, 64, 79 or 103. In the code, `process` turns such an exception at any step into a 500 reply carrying the exception's own message (str(e)). That message comes from the library, so the model cannot give its text. So Pipeline.FailsAtFirstFailingItem and Pipeline.EarlyFailures describe the error paths only for runs where every request gets an answer.
- Reading `OPENAI_API_KEY` from the environment at import time is not modelled. The key is a parameter.
- JSON decoding of the answers is not modelled, and neither are the exceptions it can raise. This covers `response.json()`, indexing `choices[0]["message"]["content"]`, `project["key"]` and `users[0]["accountId"]`. The answers are taken as well formed, and `.get("values", [])` is the project list itself.
- The Flask routes, the upload, saving and reading of the transcript file, reading the form fields, the `jsonify` encoding and server startup are not modelled. `Process` starts from the meeting text and the project name.
- `\d`, `\w` and `str.lower` are ASCII only; Python's are Unicode-aware. `\s` follows `str.isspace`. `re.MULTILINE` changes nothing here, because the pattern has no `^` or `$`.
- Completion.RequestFor: the temperature 0.3 is kept as 3 tenths, because the model has no floating point.
- Issues.BuildPayload: the body's nested objects (`project.key`, `issuetype.name`, `assignee.accountId`) are flattened into one record of fields.
- Issues.AcceptResponse: a created issue is the answer's body text, not the decoded JSON object.
- Pipeline.Services: Jira's user search answers as a function of the query alone. Issue creation answers as a function of the item's position and the request body. Any state the services keep between calls is not modelled.
- Regex.MatchAt: the engine covers only concatenations of literals and greedy or lazy quantified classes. That is all the pattern here uses. General regular expressions are not modelled.
