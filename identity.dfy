/** Resolving names to Jira identifiers: a project name to its key
    (`get_project_key_by_name`) and an assignee's name to an account id
    (`get_account_id_by_name`). The search results are what Jira's project and
    user searches answered; making those requests is not part of this model. */
module Identity {
  import opened Results
  import opened Text

  /** One entry of the project search's "values" list. */
  datatype Project = Project(name: string, key: string)

  /** One entry of the user search's answer. */
  datatype User = User(accountId: string)

  const PROJECT_NOT_FOUND: string := "Project not found"

  const USER_NOT_FOUND: string := "User not found: "

  /** The names are equal after `str.lower` on both. */
  predicate SameName(a: string, b: string) {
    Lower(a) == Lower(b)
  }

  /** The key of the first project whose name matches name, or the
      "Project not found" error. */
  function ProjectKey(projects: seq<Project>, name: string): (r: Result<string>)
    ensures r.Err? ==> r.error == PROJECT_NOT_FOUND
  {
    if projects == [] then Err(PROJECT_NOT_FOUND)
    else if SameName(projects[0].name, name) then Ok(projects[0].key)
    else ProjectKey(projects[1..], name)
  }

  /** projects[i] is the first project whose name matches name. */
  predicate FirstNamed(projects: seq<Project>, name: string, i: nat) {
    i < |projects| && SameName(projects[i].name, name) &&
    forall j :: 0 <= j < i ==> !SameName(projects[j].name, name)
  }

  /** The lookup answers the key of the first project with a matching name. */
  lemma {:induction false} ProjectKeyIsFirst(projects: seq<Project>, name: string, i: nat)
    requires FirstNamed(projects, name, i)
    ensures ProjectKey(projects, name) == Ok(projects[i].key)
    decreases i
  {
    if i > 0 {
      assert !SameName(projects[0].name, name);
      assert FirstNamed(projects[1..], name, i - 1) by {
        forall j | 0 <= j < i - 1 ensures !SameName(projects[1..][j].name, name) {
          assert projects[1..][j] == projects[j + 1];
        }
      }
      ProjectKeyIsFirst(projects[1..], name, i - 1);
    }
  }

  /** The lookup fails exactly when no project's name matches. */
  lemma {:induction false} ProjectKeyNotFound(projects: seq<Project>, name: string)
    ensures ProjectKey(projects, name).Err? ==>
      forall i :: 0 <= i < |projects| ==> !SameName(projects[i].name, name)
    ensures (forall i :: 0 <= i < |projects| ==> !SameName(projects[i].name, name)) ==>
      ProjectKey(projects, name).Err?
  {
    if projects != [] {
      ProjectKeyNotFound(projects[1..], name);
      forall i | 1 <= i < |projects| ensures projects[i] == projects[1..][i - 1] { }
    }
  }

  /** `get_project_key_by_name` over the project search's answer: scan the
      projects in order and return the key of the first whose name matches,
      ignoring case; fail with "Project not found" otherwise. */
  method GetProjectKeyByName(projects: seq<Project>, projectName: string) returns (r: Result<string>)
    ensures r == ProjectKey(projects, projectName)
  {
    var wanted := Lower(projectName);
    for i := 0 to |projects|
      invariant ProjectKey(projects[i..], projectName) == ProjectKey(projects, projectName)
    {
      assert projects[i..][1..] == projects[i + 1..];
      if Lower(projects[i].name) == wanted {
        return Ok(projects[i].key);
      }
    }
    assert projects[|projects|..] == [];
    return Err(PROJECT_NOT_FOUND);
  }

  /** Names that are equal after lower-casing find the same project, or both
      find none. */
  lemma {:induction false} ProjectKeyIgnoresCase(projects: seq<Project>, a: string, b: string)
    requires Lower(a) == Lower(b)
    ensures ProjectKey(projects, a) == ProjectKey(projects, b)
  {
    if projects != [] {
      assert SameName(projects[0].name, a) == SameName(projects[0].name, b);
      ProjectKeyIgnoresCase(projects[1..], a, b);
    }
  }

  /** For example, "APOLLO" finds the project named "Apollo". */
  lemma ProjectNameIgnoresCase()
    ensures ProjectKey([Project("Website", "WEB"), Project("Apollo", "APL")], "APOLLO") == Ok("APL")
  {
    var projects := [Project("Website", "WEB"), Project("Apollo", "APL")];
    assert Lower("Apollo") == "apollo" == Lower("APOLLO");
    assert Lower("Website")[0] == 'w' != Lower("APOLLO")[0];
    ProjectKeyIsFirst(projects, "APOLLO", 1);
  }

  /** `get_account_id_by_name` over the user search's answer: the first user's
      account id, or "User not found: <name>" when the search found nobody. */
  function AccountIdFor(users: seq<User>, assigneeName: string): (r: Result<string>)
    ensures r.Err? <==> users == []
    ensures r.Err? ==> r.error == USER_NOT_FOUND + assigneeName
    ensures r.Ok? ==> r.value == users[0].accountId
  {
    if users == [] then Err(USER_NOT_FOUND + assigneeName) else Ok(users[0].accountId)
  }
}
