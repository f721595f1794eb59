/** The `/process` request handler, from the meeting text and the project
    name on: produce the minutes, extract the action items, look up the
    project key once, then for each item in order look up the assignee and
    create the issue. The first step that fails ends the handler with its
    error; otherwise the reply carries the minutes and the created issues.

    The outside services are a parameter: `Services` holds what each one
    answers, and the handler returns, beside its reply, the requests it made
    in the order it made them. */
module Pipeline {
  import opened Results
  import opened ActionItems
  import opened Identity
  import opened Issues
  import opened Completion

  /** What the outside services answer. */
  datatype Services = Services(
    apiKey: Option<string>,                   // OPENAI_API_KEY
    completion: CompletionResponse,           // the chat service's answer
    projects: seq<Project>,                   // the project search's "values"
    users: string -> seq<User>,               // the user search's answer to a query
    created: (nat, Payload) -> HttpResponse)  // Jira's answer to creation request number k

  /** An outgoing request. */
  datatype Call =
    | RequestMom(request: MomRequest)
    | SearchProjects
    | SearchUsers(query: string)
    | PostIssue(payload: Payload)

  /** The handler's JSON reply: the minutes and the created issues, or the
      message of the exception that stopped it. */
  datatype Reply = Created(mom: string, createdIssues: seq<CreatedIssue>) | Failed(error: string)

  /** The HTTP status the handler replies with: Flask's default 200 for the
      minutes and issues, 500 for the error of the exception that stopped it. */
  function ReplyStatus(r: Reply): (status: int)
    ensures status == 200 <==> r.Created?
    ensures status == 500 <==> r.Failed?
  {
    if r.Created? then 200 else 500
  }

  const SUMMARY_PREFIX: string := "Action Item: "

  /** The `issue_data` for one item. */
  function IssueDataFor(projectKey: string, item: ActionItem, accountId: string): IssueData {
    IssueData(projectKey, SUMMARY_PREFIX + item.description, item.description, accountId)
  }

  /** The outcome of the steps for item number k: the assignee lookup, then
      the creation request. */
  function ItemOutcome(env: Services, projectKey: string, item: ActionItem, k: nat): Result<CreatedIssue> {
    match AccountIdFor(env.users(item.assignee), item.assignee)
    case Err(e) => Err(e)
    case Ok(accountId) => AcceptResponse(env.created(k, BuildPayload(IssueDataFor(projectKey, item, accountId))))
  }

  /** The requests the steps for item number k make: the user search, then the
      creation request if the user was found. */
  function ItemCalls(env: Services, projectKey: string, item: ActionItem): seq<Call> {
    [SearchUsers(item.assignee)] +
    match AccountIdFor(env.users(item.assignee), item.assignee)
    case Err(_) => []
    case Ok(accountId) => [PostIssue(BuildPayload(IssueDataFor(projectKey, item, accountId)))]
  }

  /** The requests made for the first n items. */
  function CallsUpTo(env: Services, projectKey: string, items: seq<ActionItem>, n: nat): seq<Call>
    requires n <= |items|
  {
    if n == 0 then [] else CallsUpTo(env, projectKey, items, n - 1) + ItemCalls(env, projectKey, items[n - 1])
  }

  /** The first item, from k on, whose steps fail; |items| if none does. */
  function FirstFailure(env: Services, projectKey: string, items: seq<ActionItem>, k: nat): (f: nat)
    requires k <= |items|
    ensures k <= f <= |items|
    ensures forall j :: k <= j < f ==> ItemOutcome(env, projectKey, items[j], j).Ok?
    ensures f < |items| ==> ItemOutcome(env, projectKey, items[f], f).Err?
    decreases |items| - k
  {
    if k == |items| || ItemOutcome(env, projectKey, items[k], k).Err? then k
    else FirstFailure(env, projectKey, items, k + 1)
  }

  /** The reply and the requests of the item loop, once the project key is known. */
  function ItemsReply(env: Services, mom: string, projectKey: string, items: seq<ActionItem>): (Reply, seq<Call>) {
    var f := FirstFailure(env, projectKey, items, 0);
    if f == |items| then
      (Created(mom, seq(|items|, j requires 0 <= j < |items| => ItemOutcome(env, projectKey, items[j], j).value)),
       CallsUpTo(env, projectKey, items, |items|))
    else
      (Failed(ItemOutcome(env, projectKey, items[f], f).error), CallsUpTo(env, projectKey, items, f + 1))
  }

  /** The request to the chat service, made only when the key is set. */
  function MomCalls(meetingText: string, env: Services): seq<Call> {
    if KeySet(env.apiKey) then [RequestMom(RequestFor(meetingText))] else []
  }

  /** The handler's reply and requests. */
  function Expected(meetingText: string, projectName: string, env: Services): (Reply, seq<Call>) {
    var momCalls := MomCalls(meetingText, env);
    match GenerateMom(env.apiKey, env.completion)
    case Err(e) => (Failed(e), momCalls)
    case Ok(mom) =>
      match ProjectKey(env.projects, projectName)
      case Err(e) => (Failed(e), momCalls + [SearchProjects])
      case Ok(projectKey) =>
        var (reply, more) := ItemsReply(env, mom, projectKey, ExtractRelevantPoints(mom));
        (reply, momCalls + [SearchProjects] + more)
  }

  /** The loop of `process` over the extracted items, once the project key
      is known: for each item in order, look up the assignee and create the
      issue; stop at the first failure. */
  method ProcessItems(env: Services, mom: string, projectKey: string, points: seq<ActionItem>)
    returns (reply: Reply, calls: seq<Call>)
    ensures (reply, calls) == ItemsReply(env, mom, projectKey, points)
  {
    calls := [];
    var createdIssues: seq<CreatedIssue> := [];
    for k := 0 to |points|
      invariant |createdIssues| == k
      invariant forall j :: 0 <= j < k ==> ItemOutcome(env, projectKey, points[j], j) == Ok(createdIssues[j])
      invariant calls == CallsUpTo(env, projectKey, points, k)
    {
      var item := points[k];
      assert CallsUpTo(env, projectKey, points, k + 1) == calls + ItemCalls(env, projectKey, item);
      calls := calls + [SearchUsers(item.assignee)];
      var accountId := AccountIdFor(env.users(item.assignee), item.assignee);
      if accountId.Err? {
        assert ItemCalls(env, projectKey, item) == [SearchUsers(item.assignee)];
        assert FirstFailure(env, projectKey, points, 0) == k;
        return Failed(accountId.error), calls;
      }
      var payload := BuildPayload(IssueDataFor(projectKey, item, accountId.value));
      assert ItemCalls(env, projectKey, item) == [SearchUsers(item.assignee)] + [PostIssue(payload)];
      calls := calls + [PostIssue(payload)];
      var issue := AcceptResponse(env.created(k, payload));
      assert calls == CallsUpTo(env, projectKey, points, k + 1);
      if issue.Err? {
        assert FirstFailure(env, projectKey, points, 0) == k;
        return Failed(issue.error), calls;
      }
      createdIssues := createdIssues + [issue.value];
    }
    assert FirstFailure(env, projectKey, points, 0) == |points|;
    assert createdIssues == seq(|points|, j requires 0 <= j < |points| => ItemOutcome(env, projectKey, points[j], j).value);
    return Created(mom, createdIssues), calls;
  }

  /** `process`, from the meeting text and the project name on. */
  method Process(meetingText: string, projectName: string, env: Services) returns (reply: Reply, calls: seq<Call>)
    ensures (reply, calls) == Expected(meetingText, projectName, env)
  {
    calls := MomCalls(meetingText, env);
    var generated := GenerateMom(env.apiKey, env.completion);
    if generated.Err? {
      return Failed(generated.error), calls;
    }
    var mom := generated.value;
    var points := ExtractRelevantPoints(mom);
    calls := calls + [SearchProjects];
    var found := GetProjectKeyByName(env.projects, projectName);
    if found.Err? {
      return Failed(found.error), calls;
    }
    var more;
    reply, more := ProcessItems(env, mom, found.value, points);
    calls := calls + more;
  }

  /** The request body for item, once its assignee has been found. */
  function PayloadFor(env: Services, projectKey: string, item: ActionItem): Payload
    requires env.users(item.assignee) != []
  {
    BuildPayload(IssueDataFor(projectKey, item, env.users(item.assignee)[0].accountId))
  }

  /** Item number k goes through: its assignee is found and Jira accepts its issue. */
  predicate ItemSucceeds(env: Services, projectKey: string, item: ActionItem, k: nat) {
    env.users(item.assignee) != [] && Accepted(env.created(k, PayloadFor(env, projectKey, item)).status)
  }

  /** The steps for an item succeed exactly when its assignee is found and
      Jira accepts its issue, and the record is then the body of Jira's answer. */
  lemma ItemOutcomeOk(env: Services, projectKey: string, item: ActionItem, k: nat)
    ensures ItemOutcome(env, projectKey, item, k).Ok? == ItemSucceeds(env, projectKey, item, k)
    ensures ItemSucceeds(env, projectKey, item, k) ==>
      ItemOutcome(env, projectKey, item, k).value == CreatedIssue(env.created(k, PayloadFor(env, projectKey, item)).text) &&
      ItemCalls(env, projectKey, item) == [SearchUsers(item.assignee), PostIssue(PayloadFor(env, projectKey, item))]
    ensures !ItemSucceeds(env, projectKey, item, k) ==> |ItemCalls(env, projectKey, item)| <= 2
  {
  }

  /** A request an item's steps make: a user search, or an issue request for
      the project key, of type "Task", whose summary is "Action Item: " and
      the description. */
  predicate ItemRequest(c: Call, projectKey: string) {
    || c.SearchUsers?
    || (&& c.PostIssue?
        && c.payload.fields.projectKey == projectKey
        && c.payload.fields.issueType == ISSUE_TYPE
        && c.payload.fields.summary == SUMMARY_PREFIX + c.payload.fields.description)
  }

  lemma {:induction false} ItemRequestsOnly(env: Services, projectKey: string, items: seq<ActionItem>, n: nat)
    requires n <= |items|
    ensures forall i :: 0 <= i < |CallsUpTo(env, projectKey, items, n)| ==>
      ItemRequest(CallsUpTo(env, projectKey, items, n)[i], projectKey)
  {
    if n > 0 {
      ItemRequestsOnly(env, projectKey, items, n - 1);
      var before := CallsUpTo(env, projectKey, items, n - 1);
      var last := ItemCalls(env, projectKey, items[n - 1]);
      forall i | 0 <= i < |before + last| ensures ItemRequest((before + last)[i], projectKey) {
        if i >= |before| {
          assert (before + last)[i] == last[i - |before|];
        } else {
          assert (before + last)[i] == before[i];
        }
      }
    }
  }

  /** While every item succeeds, item j makes requests 2j and 2j + 1: the user
      search for its assignee, then its issue request. */
  lemma {:induction false} SucceedingCalls(env: Services, projectKey: string, items: seq<ActionItem>, n: nat)
    requires n <= |items| && forall j :: 0 <= j < n ==> ItemSucceeds(env, projectKey, items[j], j)
    ensures |CallsUpTo(env, projectKey, items, n)| == 2 * n
    ensures forall j :: 0 <= j < n ==>
      ItemSucceeds(env, projectKey, items[j], j) &&
      CallsUpTo(env, projectKey, items, n)[2 * j] == SearchUsers(items[j].assignee) &&
      CallsUpTo(env, projectKey, items, n)[2 * j + 1] == PostIssue(PayloadFor(env, projectKey, items[j]))
  {
    if n > 0 {
      SucceedingCalls(env, projectKey, items, n - 1);
      ItemOutcomeOk(env, projectKey, items[n - 1], n - 1);
    }
  }

  /** The item loop's requests, whichever way it ends: the requests of the
      items up to the first failure, a user search or an issue request each. */
  lemma ItemsReplyRequests(env: Services, mom: string, projectKey: string, items: seq<ActionItem>)
    ensures var more := ItemsReply(env, mom, projectKey, items).1;
      forall i :: 0 <= i < |more| ==> ItemRequest(more[i], projectKey)
  {
    var f := FirstFailure(env, projectKey, items, 0);
    ItemRequestsOnly(env, projectKey, items, if f == |items| then f else f + 1);
  }

  /** The steps for the first n items succeed exactly when each does. */
  lemma EachOutcomeOk(env: Services, projectKey: string, items: seq<ActionItem>)
    ensures forall k :: 0 <= k < |items| ==>
      ItemOutcome(env, projectKey, items[k], k).Ok? == ItemSucceeds(env, projectKey, items[k], k)
  {
    forall k | 0 <= k < |items|
      ensures ItemOutcome(env, projectKey, items[k], k).Ok? == ItemSucceeds(env, projectKey, items[k], k)
    {
      ItemOutcomeOk(env, projectKey, items[k], k);
    }
  }

  /** The item loop succeeds only when every item does. */
  lemma ItemsReplyCreatedOnlyIf(env: Services, mom: string, projectKey: string, items: seq<ActionItem>)
    requires ItemsReply(env, mom, projectKey, items).0.Created?
    ensures forall k :: 0 <= k < |items| ==> ItemSucceeds(env, projectKey, items[k], k)
  {
    EachOutcomeOk(env, projectKey, items);
  }

  /** When every item succeeds, the item loop answers one record per item, in
      order, after the requests for each item in turn. */
  lemma ItemsReplyCreated(env: Services, mom: string, projectKey: string, items: seq<ActionItem>)
    requires forall k :: 0 <= k < |items| ==> ItemSucceeds(env, projectKey, items[k], k)
    ensures var (reply, more) := ItemsReply(env, mom, projectKey, items);
      && reply.Created? && reply.mom == mom
      && |reply.createdIssues| == |items|
      && |more| == 2 * |items|
      && forall k :: 0 <= k < |items| ==>
        && more[2 * k] == SearchUsers(items[k].assignee)
        && more[2 * k + 1] == PostIssue(PayloadFor(env, projectKey, items[k]))
        && reply.createdIssues[k] == CreatedIssue(env.created(k, PayloadFor(env, projectKey, items[k])).text)
  {
    EachOutcomeOk(env, projectKey, items);
    SucceedingCalls(env, projectKey, items, |items|);
    forall k | 0 <= k < |items|
      ensures ItemOutcome(env, projectKey, items[k], k).value == CreatedIssue(env.created(k, PayloadFor(env, projectKey, items[k])).text)
    {
      ItemOutcomeOk(env, projectKey, items[k], k);
    }
  }

  /** From position base on, calls holds the requests of the first n items,
      all of which succeed: item j's user search at base + 2j and its issue
      request at base + 2j + 1. */
  predicate SucceededRequests(calls: seq<Call>, base: nat, env: Services, projectKey: string, items: seq<ActionItem>, n: nat) {
    && n <= |items|
    && base + 2 * n <= |calls|
    && forall j :: 0 <= j < n ==>
      && ItemSucceeds(env, projectKey, items[j], j)
      && calls[base + 2 * j] == SearchUsers(items[j].assignee)
      && calls[base + 2 * j + 1] == PostIssue(PayloadFor(env, projectKey, items[j]))
  }

  /** From position base on, calls holds the requests of items 0 to f - 1,
      which succeed, then those of item f, which fails, and nothing more:
      its user search, then its issue request if the user was found. */
  predicate FailedRequests(calls: seq<Call>, base: nat, env: Services, projectKey: string, items: seq<ActionItem>, f: nat) {
    && f < |items|
    && SucceededRequests(calls, base, env, projectKey, items, f)
    && !ItemSucceeds(env, projectKey, items[f], f)
    && base + 2 * f < |calls|
    && calls[base + 2 * f] == SearchUsers(items[f].assignee)
    && if env.users(items[f].assignee) == [] then |calls| == base + 2 * f + 1
       else |calls| == base + 2 * f + 2 && calls[base + 2 * f + 1] == PostIssue(PayloadFor(env, projectKey, items[f]))
  }

  /** The message of item f's failure: the user search's or the creation's. */
  function FailureMessage(env: Services, projectKey: string, item: ActionItem, f: nat): string {
    if env.users(item.assignee) == [] then USER_NOT_FOUND + item.assignee
    else JIRA_ERROR + env.created(f, PayloadFor(env, projectKey, item)).text
  }

  /** The layout of the requests is kept behind any prefix. */
  lemma FailedRequestsAfter(prefix: seq<Call>, more: seq<Call>, env: Services, projectKey: string, items: seq<ActionItem>, f: nat)
    requires FailedRequests(more, 0, env, projectKey, items, f)
    ensures FailedRequests(prefix + more, |prefix|, env, projectKey, items, f)
  {
    var calls := prefix + more;
    forall j | 0 <= j < f
      ensures calls[|prefix| + 2 * j] == more[2 * j] && calls[|prefix| + 2 * j + 1] == more[2 * j + 1]
    {
    }
    assert calls[|prefix| + 2 * f] == more[2 * f];
    if env.users(items[f].assignee) != [] {
      assert calls[|prefix| + 2 * f + 1] == more[2 * f + 1];
    }
  }

  /** The failing item of the loop is the one FirstFailure names. */
  lemma ItemsReplyFailedAt(env: Services, mom: string, projectKey: string, items: seq<ActionItem>)
    requires ItemsReply(env, mom, projectKey, items).0.Failed?
    ensures var f := FirstFailure(env, projectKey, items, 0);
      && FailedRequests(ItemsReply(env, mom, projectKey, items).1, 0, env, projectKey, items, f)
      && ItemsReply(env, mom, projectKey, items).0.error == FailureMessage(env, projectKey, items[f], f)
  {
    var more := ItemsReply(env, mom, projectKey, items).1;
    var f := FirstFailure(env, projectKey, items, 0);
    EachOutcomeOk(env, projectKey, items);
    ItemOutcomeOk(env, projectKey, items[f], f);
    SucceedingCalls(env, projectKey, items, f);
    assert more == CallsUpTo(env, projectKey, items, f) + ItemCalls(env, projectKey, items[f]);
  }

  /** When the item loop fails, it answers the error of the first failing
      item; its requests are those of the items before it, which all went
      through, then those of the failing item, and none for a later item. */
  lemma ItemsReplyFailed(env: Services, mom: string, projectKey: string, items: seq<ActionItem>)
    requires ItemsReply(env, mom, projectKey, items).0.Failed?
    ensures var (reply, more) := ItemsReply(env, mom, projectKey, items);
      exists f: nat :: FailedRequests(more, 0, env, projectKey, items, f) &&
        reply.error == FailureMessage(env, projectKey, items[f], f)
  {
    ItemsReplyFailedAt(env, mom, projectKey, items);
  }

  /** The handler's requests and reply once the minutes and the project key are in hand. */
  lemma ExpectedOnceKnown(meetingText: string, projectName: string, env: Services, mom: string, projectKey: string)
    requires GenerateMom(env.apiKey, env.completion) == Ok(mom)
    requires ProjectKey(env.projects, projectName) == Ok(projectKey)
    ensures var (reply, more) := ItemsReply(env, mom, projectKey, ExtractRelevantPoints(mom));
      Expected(meetingText, projectName, env) == (reply, MomCalls(meetingText, env) + [SearchProjects] + more)
  {
  }

  /** Without a key the handler fails at once and makes no request. */
  lemma KeyUnsetMakesNoRequest(meetingText: string, projectName: string, env: Services)
    requires !KeySet(env.apiKey)
    ensures Expected(meetingText, projectName, env) == (Failed(KEY_NOT_SET), [])
  {
  }

  /** The layout of the handler's requests once the project key is known:
      the minutes request, the project search, then item requests only. The
      project search appears once, and every issue request is of the item form. */
  lemma SearchThenItems(momCalls: seq<Call>, more: seq<Call>, projectKey: string)
    requires forall i :: 0 <= i < |momCalls| ==> momCalls[i].RequestMom?
    requires forall i :: 0 <= i < |more| ==> ItemRequest(more[i], projectKey)
    ensures var calls := momCalls + [SearchProjects] + more;
      && calls[|momCalls|] == SearchProjects
      && (forall i :: 0 <= i < |calls| && i != |momCalls| ==> calls[i] != SearchProjects)
      && forall i :: 0 <= i < |calls| && calls[i].PostIssue? ==> ItemRequest(calls[i], projectKey)
  {
    var calls := momCalls + [SearchProjects] + more;
    forall i | 0 <= i < |calls| && i != |momCalls|
      ensures calls[i] != SearchProjects
      ensures calls[i].PostIssue? ==> ItemRequest(calls[i], projectKey)
    {
      if i > |momCalls| {
        assert calls[i] == more[i - |momCalls| - 1];
      } else {
        assert calls[i] == momCalls[i];
      }
    }
  }

  /** The project search is made exactly once, right after the minutes are
      produced, whether or not any item was extracted; it is not made when
      producing the minutes failed. */
  lemma ProjectSearchedOnce(meetingText: string, projectName: string, env: Services)
    ensures var calls, n := Expected(meetingText, projectName, env).1, |MomCalls(meetingText, env)|;
      GenerateMom(env.apiKey, env.completion).Ok? ==>
        n < |calls| && calls[n] == SearchProjects &&
        forall i :: 0 <= i < |calls| && i != n ==> calls[i] != SearchProjects
    ensures GenerateMom(env.apiKey, env.completion).Err? ==>
      SearchProjects !in Expected(meetingText, projectName, env).1
  {
    match GenerateMom(env.apiKey, env.completion)
    case Err(_) =>
    case Ok(mom) =>
      match ProjectKey(env.projects, projectName)
      case Err(_) =>
      case Ok(key) =>
        ExpectedOnceKnown(meetingText, projectName, env, mom, key);
        ItemsReplyRequests(env, mom, key, ExtractRelevantPoints(mom));
        SearchThenItems(MomCalls(meetingText, env), ItemsReply(env, mom, key, ExtractRelevantPoints(mom)).1, key);
  }

  /** Every issue request is for the looked-up project, of type "Task", with
      the summary "Action Item: " followed by the description. */
  lemma IssuesShareProjectKey(meetingText: string, projectName: string, env: Services, projectKey: string)
    requires ProjectKey(env.projects, projectName) == Ok(projectKey)
    ensures var calls := Expected(meetingText, projectName, env).1;
      forall i :: 0 <= i < |calls| && calls[i].PostIssue? ==>
        && calls[i].payload.fields.projectKey == projectKey
        && calls[i].payload.fields.issueType == ISSUE_TYPE
        && calls[i].payload.fields.summary == SUMMARY_PREFIX + calls[i].payload.fields.description
  {
    match GenerateMom(env.apiKey, env.completion)
    case Err(_) =>
    case Ok(mom) =>
      ExpectedOnceKnown(meetingText, projectName, env, mom, projectKey);
      ItemsReplyRequests(env, mom, projectKey, ExtractRelevantPoints(mom));
      SearchThenItems(MomCalls(meetingText, env), ItemsReply(env, mom, projectKey, ExtractRelevantPoints(mom)).1, projectKey);
  }

  /** Once the minutes and the project key are in hand, the handler succeeds
      only when every extracted item succeeds. */
  lemma CreatedOnlyIfEveryItemSucceeds(meetingText: string, projectName: string, env: Services, mom: string, projectKey: string)
    requires GenerateMom(env.apiKey, env.completion) == Ok(mom)
    requires ProjectKey(env.projects, projectName) == Ok(projectKey)
    requires Expected(meetingText, projectName, env).0.Created?
    ensures var items := ExtractRelevantPoints(mom);
      forall k :: 0 <= k < |items| ==> ItemSucceeds(env, projectKey, items[k], k)
  {
    ExpectedOnceKnown(meetingText, projectName, env, mom, projectKey);
    ItemsReplyCreatedOnlyIf(env, mom, projectKey, ExtractRelevantPoints(mom));
  }

  /** The requests of succeeding items keep their layout behind any prefix. */
  lemma ItemsAfter(prefix: seq<Call>, more: seq<Call>, env: Services, projectKey: string, items: seq<ActionItem>)
    requires |more| == 2 * |items|
    requires forall k :: 0 <= k < |items| ==>
      && ItemSucceeds(env, projectKey, items[k], k)
      && more[2 * k] == SearchUsers(items[k].assignee)
      && more[2 * k + 1] == PostIssue(PayloadFor(env, projectKey, items[k]))
    ensures var calls := prefix + more;
      && |calls| == |prefix| + 2 * |items|
      && forall k :: 0 <= k < |items| ==>
        && ItemSucceeds(env, projectKey, items[k], k)
        && calls[|prefix| + 2 * k] == SearchUsers(items[k].assignee)
        && calls[|prefix| + 2 * k + 1] == PostIssue(PayloadFor(env, projectKey, items[k]))
  {
    var calls := prefix + more;
    forall k | 0 <= k < |items|
      ensures calls[|prefix| + 2 * k] == more[2 * k] && calls[|prefix| + 2 * k + 1] == more[2 * k + 1]
    {
    }
  }

  /** When every extracted item succeeds, the handler succeeds, and its reply
      holds one record per item, in order: item k's user search and issue
      request are made in that order after the project search, and its record
      is the body of Jira's answer to that request. */
  lemma CreatedInOrder(meetingText: string, projectName: string, env: Services, mom: string, projectKey: string)
    requires GenerateMom(env.apiKey, env.completion) == Ok(mom)
    requires ProjectKey(env.projects, projectName) == Ok(projectKey)
    requires var items := ExtractRelevantPoints(mom);
      forall k :: 0 <= k < |items| ==> ItemSucceeds(env, projectKey, items[k], k)
    ensures var (reply, calls) := Expected(meetingText, projectName, env);
      var items, n := ExtractRelevantPoints(mom), |MomCalls(meetingText, env)| + 1;
      && reply.Created? && reply.mom == mom
      && |reply.createdIssues| == |items|
      && |calls| == n + 2 * |items|
      && forall k :: 0 <= k < |items| ==>
        && calls[n + 2 * k] == SearchUsers(items[k].assignee)
        && calls[n + 2 * k + 1] == PostIssue(PayloadFor(env, projectKey, items[k]))
        && reply.createdIssues[k] == CreatedIssue(env.created(k, PayloadFor(env, projectKey, items[k])).text)
  {
    var items := ExtractRelevantPoints(mom);
    ExpectedOnceKnown(meetingText, projectName, env, mom, projectKey);
    ItemsReplyCreated(env, mom, projectKey, items);
    ItemsAfter(MomCalls(meetingText, env) + [SearchProjects], ItemsReply(env, mom, projectKey, items).1, env, projectKey, items);
  }

  /** When an item fails, the reply is the error of the first failing item: the
      user search's "User not found: <name>" or the creation's "Jira API
      Error: <text>". After the minutes request and the project search come
      the requests of the items before it, which all went through, then
      those of the failing item, and none for a later item. */
  lemma FailsAtFirstFailingItem(meetingText: string, projectName: string, env: Services, mom: string, projectKey: string)
    requires GenerateMom(env.apiKey, env.completion) == Ok(mom)
    requires ProjectKey(env.projects, projectName) == Ok(projectKey)
    requires Expected(meetingText, projectName, env).0.Failed?
    ensures var (reply, calls) := Expected(meetingText, projectName, env);
      var items := ExtractRelevantPoints(mom);
      exists f: nat :: FailedRequests(calls, |MomCalls(meetingText, env)| + 1, env, projectKey, items, f) &&
        reply.error == FailureMessage(env, projectKey, items[f], f)
  {
    var items := ExtractRelevantPoints(mom);
    ExpectedOnceKnown(meetingText, projectName, env, mom, projectKey);
    ItemsReplyFailedAt(env, mom, projectKey, items);
    FailedRequestsAfter(MomCalls(meetingText, env) + [SearchProjects], ItemsReply(env, mom, projectKey, items).1,
                        env, projectKey, items, FirstFailure(env, projectKey, items, 0));
  }

  /** A failure before the item loop ends the handler with that step's
      message: an unset key before any request, an error answer of the chat
      service right after its request, and a missing project right after the
      project search; no user search or issue request is made. */
  lemma EarlyFailures(meetingText: string, projectName: string, env: Services)
    ensures KeySet(env.apiKey) && env.completion.status != 200 ==>
      Expected(meetingText, projectName, env) ==
        (Failed(AI_ERROR + env.completion.text), [RequestMom(RequestFor(meetingText))])
    ensures (&& KeySet(env.apiKey) && env.completion.status == 200
             && forall i :: 0 <= i < |env.projects| ==> !SameName(env.projects[i].name, projectName)) ==>
      Expected(meetingText, projectName, env) ==
        (Failed(PROJECT_NOT_FOUND), [RequestMom(RequestFor(meetingText)), SearchProjects])
  {
    ProjectKeyNotFound(env.projects, projectName);
    if && KeySet(env.apiKey) && env.completion.status == 200
       && forall i :: 0 <= i < |env.projects| ==> !SameName(env.projects[i].name, projectName)
    {
      assert ProjectKey(env.projects, projectName) == Err(PROJECT_NOT_FOUND);
      assert MomCalls(meetingText, env) + [SearchProjects] == [RequestMom(RequestFor(meetingText)), SearchProjects];
    }
  }
}
