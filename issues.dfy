/** Creating a Jira issue (`create_jira_issue`): the request body built from
    the issue data, and the rule that decides whether Jira's answer is a
    created issue or an error. */
module Issues {
  import opened Results

  /** The `issue_data` dictionary the caller fills in. */
  datatype IssueData = IssueData(projectKey: string, summary: string, description: string, assigneeAccountId: string)

  /** The "fields" object of the request body: project key, summary,
      description, issue type name and assignee account id. */
  datatype Fields = Fields(projectKey: string, summary: string, description: string, issueType: string, assigneeAccountId: string)

  /** The request body, `{"fields": …}`. */
  datatype Payload = Payload(fields: Fields)

  /** Jira's answer: its status code and body text. */
  datatype HttpResponse = HttpResponse(status: int, text: string)

  /** The created issue as Jira describes it: the body of a successful answer. */
  datatype CreatedIssue = CreatedIssue(body: string)

  /** Every issue is created as a task. */
  const ISSUE_TYPE: string := "Task"

  const JIRA_ERROR: string := "Jira API Error: "

  /** The issue data a request body carries. */
  function DataOf(p: Payload): IssueData {
    IssueData(p.fields.projectKey, p.fields.summary, p.fields.description, p.fields.assigneeAccountId)
  }

  /** The request body for data: each field is copied unchanged and the issue
      type is "Task". */
  function BuildPayload(data: IssueData): (p: Payload)
    ensures DataOf(p) == data
    ensures p.fields.issueType == ISSUE_TYPE
  {
    Payload(Fields(data.projectKey, data.summary, data.description, ISSUE_TYPE, data.assigneeAccountId))
  }

  /** Whether Jira's answer counts as success: only 200 and 201 do. */
  predicate Accepted(status: int) {
    status == 200 || status == 201
  }

  /** The outcome of the creation request: the created issue on an accepted
      status, "Jira API Error: " followed by the body text on any other. */
  function AcceptResponse(response: HttpResponse): (r: Result<CreatedIssue>)
    ensures r.Ok? <==> Accepted(response.status)
    ensures r.Ok? ==> r.value == CreatedIssue(response.text)
    ensures r.Err? ==> r.error == JIRA_ERROR + response.text
  {
    if Accepted(response.status) then Ok(CreatedIssue(response.text))
    else Err(JIRA_ERROR + response.text)
  }
}
