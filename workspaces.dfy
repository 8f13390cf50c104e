/** Resolving the configured Toggl workspace name to its id:
    `[w['id'] for w in toggl.getWorkspaces() if w['name'] == name][0]`. */
module Workspaces {
  import opened Wrappers

  /** One entry of the list Toggl returns for the account. */
  datatype Workspace = Workspace(id: int, name: string)

  /** Index `i` holds the first workspace called `name`. */
  predicate IsFirstMatch(workspaces: seq<Workspace>, name: string, i: int) {
    0 <= i < |workspaces| && workspaces[i].name == name &&
    forall j :: 0 <= j < i ==> workspaces[j].name != name
  }

  /** The comprehension: ids of the workspaces with that name, in list order. */
  function MatchingIds(workspaces: seq<Workspace>, name: string): (ids: seq<int>)
    ensures ids == [] <==> forall i :: 0 <= i < |workspaces| ==> workspaces[i].name != name
    ensures ids != [] ==> exists i :: IsFirstMatch(workspaces, name, i) && workspaces[i].id == ids[0]
  {
    if workspaces == [] then []
    else if workspaces[0].name == name then
      assert IsFirstMatch(workspaces, name, 0);
      [workspaces[0].id] + MatchingIds(workspaces[1..], name)
    else
      var rest := MatchingIds(workspaces[1..], name);
      assert forall i :: 1 <= i < |workspaces| ==> workspaces[i] == workspaces[1..][i - 1];
      assert forall i :: IsFirstMatch(workspaces[1..], name, i) ==> IsFirstMatch(workspaces, name, i + 1);
      rest
  }

  /** `wid`: the id of the first workspace with that name; `None` stands for
      the IndexError that `[...][0]` raises when no workspace has it. */
  function LookupWorkspace(workspaces: seq<Workspace>, name: string): (wid: Option<int>)
    ensures wid.None? <==> forall i :: 0 <= i < |workspaces| ==> workspaces[i].name != name
    ensures wid.Some? ==> exists i :: IsFirstMatch(workspaces, name, i) && workspaces[i].id == wid.value
  {
    var ids := MatchingIds(workspaces, name);
    if ids == [] then None else Some(ids[0])
  }
}
